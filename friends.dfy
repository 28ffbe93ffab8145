/** The friendship handlers of packages/backend/convex/friends.ts. A friendship record is
    directed, from the requester to the addressee, and goes pending -> accepted or
    pending -> rejected; a rejected outgoing record can be re-opened. Each mutation is
    specified by a function from the tables before to the tables after and the result, and
    the method that performs it against the store is proved to do exactly that. */
module Friends {
  import opened Wrappers
  import opened Schema
  import opened Helpers
  import opened Store

  /** A notification about a friendship: no habit, no message, unread. */
  function FriendNote(to: UserId, from: UserId, kind: NotificationType): Notification
  {
    Notification(to, Some(from), kind, None, None, false)
  }

  /** `ctx.db.insert("notifications", ...)` on the tables. */
  function Notify(t: Tables, to: UserId, from: UserId, kind: NotificationType, now: int): Tables
  {
    t.(notifications := t.notifications + [Doc(t.nextId, now, FriendNote(to, from, kind))], nextId := t.nextId + 1)
  }

  /** `ctx.db.patch(id, { status })` on the k-th friendship record. */
  function SetStatus(t: Tables, k: nat, status: FriendshipStatus): Tables
    requires k < |t.friendships|
  {
    t.(friendships := Patch(t.friendships, k, t.friendships[k].data.(status := status)))
  }

  /** `ctx.db.insert("friendships", { requesterId, addresseeId, status: "pending" })`. */
  function AddRequest(t: Tables, requester: UserId, addressee: UserId, now: int): Tables
  {
    t.(friendships := t.friendships + [Doc(t.nextId, now, Friendship(requester, addressee, Pending))],
       nextId := t.nextId + 1)
  }

  // ---------------------------------------------------------------------------------------
  // sendRequest, sendRequestByClerkId
  // ---------------------------------------------------------------------------------------

  /** `sendRequest({ addresseeId })` from `caller`: refuse a request to oneself; look at the
      caller's own record to the addressee (pending: already sent, accepted: already friends,
      rejected: re-open it and notify); else at the addressee's record to the caller
      (pending: accept it and notify, accepted: already friends); else insert a new pending
      record and notify. */
  function Send(t: Tables, caller: UserId, addressee: UserId, now: int): (r: Step<Id>)
    ensures r.result.Err? ==> r.tables == t
  {
    if caller == addressee then Step(t, Err(CannotFriendSelf))
    else match FindPair(t.friendships, caller, addressee)
      case Some(k) =>
        (match t.friendships[k].data.status
         case Pending => Step(t, Err(RequestAlreadySent))
         case Accepted => Step(t, Err(AlreadyFriends))
         case Rejected =>
           Step(Notify(SetStatus(t, k, Pending), addressee, caller, FriendRequest, now), Ok(t.friendships[k].id)))
      case None =>
        match FindPair(t.friendships, addressee, caller)
        case Some(k) =>
          (match t.friendships[k].data.status
           case Pending =>
             Step(Notify(SetStatus(t, k, Accepted), addressee, caller, FriendAccepted, now), Ok(t.friendships[k].id))
           case Accepted => Step(t, Err(AlreadyFriends))
           case Rejected =>
             Step(Notify(AddRequest(t, caller, addressee, now), addressee, caller, FriendRequest, now), Ok(t.nextId)))
        case None =>
          Step(Notify(AddRequest(t, caller, addressee, now), addressee, caller, FriendRequest, now), Ok(t.nextId))
  }

  /** A successful request sends exactly one notification, to the addressee from the caller;
      a record is inserted only when the caller has none to the addressee, so there stays at
      most one record per ordered pair. */
  lemma SendEffects(t: Tables, caller: UserId, addressee: UserId, now: int)
    ensures var r := Send(t, caller, addressee, now);
      && (r.result.Ok? ==> (
            && |r.tables.notifications| == |t.notifications| + 1
            && r.tables.notifications[..|t.notifications|] == t.notifications
            && var n := r.tables.notifications[|t.notifications|].data;
            && n.userId == addressee && n.fromUserId == Some(caller) && !n.read
            && n.kind in {FriendRequest, FriendAccepted}))
      && (|r.tables.friendships| != |t.friendships| ==> (
            && FindPair(t.friendships, caller, addressee).None?
            && |r.tables.friendships| == |t.friendships| + 1
            && r.tables.friendships[..|t.friendships|] == t.friendships
            && r.tables.friendships[|t.friendships|].data == Friendship(caller, addressee, Pending)))
      && (PairsUnique(t.friendships) ==> PairsUnique(r.tables.friendships))
  {
    var fs := t.friendships;
    if caller != addressee {
      match FindPair(fs, caller, addressee)
      case Some(k) =>
        if fs[k].data.status == Rejected {
          StatusKeepsPairs(t, k, Pending);
          NotifyAppends(SetStatus(t, k, Pending), addressee, caller, FriendRequest, now);
        }
      case None =>
        var inc := FindPair(fs, addressee, caller);
        if inc.Some? && fs[inc.value].data.status == Pending {
          StatusKeepsPairs(t, inc.value, Accepted);
          NotifyAppends(SetStatus(t, inc.value, Accepted), addressee, caller, FriendAccepted, now);
        } else if inc.None? || fs[inc.value].data.status == Rejected {
          AddRequestAppends(t, caller, addressee, now);
          NotifyAppends(AddRequest(t, caller, addressee, now), addressee, caller, FriendRequest, now);
        }
    }
  }

  lemma NotifyAppends(t: Tables, to: UserId, from: UserId, kind: NotificationType, now: int)
    ensures var ns := Notify(t, to, from, kind, now).notifications;
      && |ns| == |t.notifications| + 1 && ns[..|t.notifications|] == t.notifications
      && ns[|t.notifications|].data == FriendNote(to, from, kind)
    ensures Notify(t, to, from, kind, now).friendships == t.friendships
  {
    assert Notify(t, to, from, kind, now).notifications[..|t.notifications|] == t.notifications;
  }

  /** A status change keeps every record's pair, so it keeps one record per ordered pair. */
  lemma StatusKeepsPairs(t: Tables, k: nat, status: FriendshipStatus)
    requires k < |t.friendships|
    ensures |SetStatus(t, k, status).friendships| == |t.friendships|
    ensures PairsUnique(t.friendships) ==> PairsUnique(SetStatus(t, k, status).friendships)
  {
    var fs, fs' := t.friendships, SetStatus(t, k, status).friendships;
    assert forall i :: 0 <= i < |fs| ==>
      (fs'[i].data.requesterId == fs[i].data.requesterId && fs'[i].data.addresseeId == fs[i].data.addresseeId);
  }

  /** A new request for a pair without a record keeps one record per ordered pair. */
  lemma AddRequestAppends(t: Tables, requester: UserId, addressee: UserId, now: int)
    requires FindPair(t.friendships, requester, addressee).None?
    ensures var fs := AddRequest(t, requester, addressee, now).friendships;
      && |fs| == |t.friendships| + 1 && fs[..|t.friendships|] == t.friendships
      && fs[|t.friendships|].data == Friendship(requester, addressee, Pending)
      && (PairsUnique(t.friendships) ==> PairsUnique(fs))
  {
    var fs := AddRequest(t, requester, addressee, now).friendships;
    assert fs[..|t.friendships|] == t.friendships;
  }

  /** The errors of `sendRequest`, each with the condition it is thrown on. */
  lemma SendErrors(t: Tables, caller: UserId, addressee: UserId, now: int)
    ensures var r := Send(t, caller, addressee, now).result;
      var out, inc := FindPair(t.friendships, caller, addressee), FindPair(t.friendships, addressee, caller);
      && (r == Err(CannotFriendSelf) <==> caller == addressee)
      && (r == Err(RequestAlreadySent) <==> caller != addressee && out.Some? && t.friendships[out.value].data.status == Pending)
      && (r == Err(AlreadyFriends) <==> (caller != addressee && (
            || (out.Some? && t.friendships[out.value].data.status == Accepted)
            || (out.None? && inc.Some? && t.friendships[inc.value].data.status == Accepted))))
      && (r.Err? ==> r.error in {CannotFriendSelf, RequestAlreadySent, AlreadyFriends})
  {
  }

  /** A pending request from the addressee is accepted instead of answered with a request:
      the two become friends, and no new record is made. */
  lemma SendAcceptsIncoming(t: Tables, caller: UserId, addressee: UserId, now: int)
    requires PairsUnique(t.friendships) && caller != addressee
    requires FindPair(t.friendships, caller, addressee).None?
    requires var inc := FindPair(t.friendships, addressee, caller);
      inc.Some? && t.friendships[inc.value].data.status == Pending
    ensures var r := Send(t, caller, addressee, now);
      && r.result == Ok(t.friendships[FindPair(t.friendships, addressee, caller).value].id)
      && |r.tables.friendships| == |t.friendships|
      && AreFriends(r.tables.friendships, caller, addressee)
      && r.tables.notifications[|t.notifications|].data.kind == FriendAccepted
  {
    var k := FindPair(t.friendships, addressee, caller).value;
    var fs := Send(t, caller, addressee, now).tables.friendships;
    assert AcceptedBetween(fs[k], caller, addressee);
  }

  /** The notification a successful request sends is a friend request, except when it
      accepts the addressee's pending request. */
  lemma SendNotifies(t: Tables, caller: UserId, addressee: UserId, now: int)
    requires Send(t, caller, addressee, now).result.Ok?
    ensures var r := Send(t, caller, addressee, now);
      var inc := FindPair(t.friendships, addressee, caller);
      && r.tables.notifications[|t.notifications|].data.kind == FriendAccepted
      <==> (FindPair(t.friendships, caller, addressee).None? && inc.Some?
            && t.friendships[inc.value].data.status == Pending)
  {
  }

  /** A request over the caller's own rejected record re-opens that record: it becomes
      pending, no record is added or changed besides it, its id is returned, and the
      addressee gets one `friend_request` notification. */
  lemma SendReopensRejected(t: Tables, caller: UserId, addressee: UserId, now: int)
    requires caller != addressee
    requires var out := FindPair(t.friendships, caller, addressee);
      out.Some? && t.friendships[out.value].data.status == Rejected
    ensures var k := FindPair(t.friendships, caller, addressee).value;
      var r := Send(t, caller, addressee, now);
      var fs, fs' := t.friendships, r.tables.friendships;
      && r.result == Ok(fs[k].id)
      && |fs'| == |fs|
      && fs'[k].id == fs[k].id && fs'[k].data == fs[k].data.(status := Pending)
      && (forall j :: 0 <= j < |fs| && j != k ==> fs'[j] == fs[j])
      && r.tables.notifications == t.notifications + [Doc(t.nextId, now, FriendNote(addressee, caller, FriendRequest))]
  {
  }

  /** With no record from the caller, and none from the addressee or only a rejected one,
      a request inserts a new pending record with the next id and returns that id; the
      addressee gets one `friend_request` notification. */
  lemma SendInsertsRequest(t: Tables, caller: UserId, addressee: UserId, now: int)
    requires caller != addressee
    requires FindPair(t.friendships, caller, addressee).None?
    requires var inc := FindPair(t.friendships, addressee, caller);
      inc.None? || t.friendships[inc.value].data.status == Rejected
    ensures var r := Send(t, caller, addressee, now);
      && r.result == Ok(t.nextId)
      && r.tables.friendships == t.friendships + [Doc(t.nextId, now, Friendship(caller, addressee, Pending))]
      && r.tables.notifications == t.notifications + [Doc(t.nextId + 1, now, FriendNote(addressee, caller, FriendRequest))]
      && r.tables.nextId == t.nextId + 2
  {
  }

  /** `sendRequest` against the store. */
  method SendRequest(db: Database, caller: UserId, addresseeId: UserId, now: int) returns (r: Result<Id, Error>)
    requires db.Valid()
    modifies db
    ensures db.Valid()
    ensures Step(db.State(), r) == Send(old(db.State()), caller, addresseeId, now)
  {
    if addresseeId == caller {
      return Err(CannotFriendSelf);
    }
    var existing1 := FindPair(db.friendships, caller, addresseeId);
    if existing1.Some? {
      var k := existing1.value;
      var f := db.friendships[k];
      if f.data.status == Pending {
        return Err(RequestAlreadySent);
      }
      if f.data.status == Accepted {
        return Err(AlreadyFriends);
      }
      SetStatusAndNotify(db, k, Pending, addresseeId, caller, FriendRequest, now);
      return Ok(f.id);
    }
    var existing2 := FindPair(db.friendships, addresseeId, caller);
    if existing2.Some? {
      var k := existing2.value;
      var f := db.friendships[k];
      if f.data.status == Pending {
        SetStatusAndNotify(db, k, Accepted, addresseeId, caller, FriendAccepted, now);
        return Ok(f.id);
      }
      if f.data.status == Accepted {
        return Err(AlreadyFriends);
      }
    }
    var friendshipId := AddRequestAndNotify(db, caller, addresseeId, now);
    return Ok(friendshipId);
  }

  /** Patch the k-th record's status, then notify. */
  method SetStatusAndNotify(db: Database, k: nat, status: FriendshipStatus, to: UserId, from: UserId,
                            kind: NotificationType, now: int)
    requires db.Valid() && k < |db.friendships| && kind != Nudge
    modifies db
    ensures db.Valid()
    ensures db.State() == Notify(SetStatus(old(db.State()), k, status), to, from, kind, now)
  {
    db.PatchFriendship(k, status);
    var _ := db.InsertNotification(FriendNote(to, from, kind), now);
  }

  /** Insert a pending record from the caller, then notify the addressee. */
  method AddRequestAndNotify(db: Database, caller: UserId, addressee: UserId, now: int) returns (id: Id)
    requires db.Valid() && FindPair(db.friendships, caller, addressee).None?
    modifies db
    ensures db.Valid() && id == old(db.nextId)
    ensures db.State() == Notify(AddRequest(old(db.State()), caller, addressee, now), addressee, caller, FriendRequest, now)
  {
    id := db.InsertFriendship(Friendship(caller, addressee, Pending), now);
    var _ := db.InsertNotification(FriendNote(addressee, caller, FriendRequest), now);
  }

  /** `sendRequestByClerkId({ clerkUserId })`: its body is a copy of `sendRequest`'s. */
  method SendRequestByClerkId(db: Database, caller: UserId, clerkUserId: UserId, now: int) returns (r: Result<Id, Error>)
    requires db.Valid()
    modifies db
    ensures db.Valid()
    ensures Step(db.State(), r) == Send(old(db.State()), caller, clerkUserId, now)
  {
    r := SendRequest(db, caller, clerkUserId, now);
  }

  // ---------------------------------------------------------------------------------------
  // acceptRequest, rejectRequest
  // ---------------------------------------------------------------------------------------

  /** The checks `acceptRequest` and `rejectRequest` share: the record exists, the caller is
      its addressee, and it is still pending. */
  function CheckAnswer(fs: seq<Doc<Friendship>>, caller: UserId, friendshipId: Id): (r: Result<nat, Error>)
    ensures r.Ok? ==> (
      && r.value < |fs| && fs[r.value].id == friendshipId
      && fs[r.value].data.addresseeId == caller && fs[r.value].data.status == Pending)
    ensures r == Err(RequestNotFound) <==> forall k :: 0 <= k < |fs| ==> fs[k].id != friendshipId
    ensures IdsDistinct(fs) ==> forall k :: 0 <= k < |fs| && fs[k].id == friendshipId ==> (
      && (r == Err(NotAuthorized) <==> fs[k].data.addresseeId != caller)
      && (r == Err(RequestAlreadyProcessed) <==> fs[k].data.addresseeId == caller && fs[k].data.status != Pending))
  {
    match IndexOf(fs, friendshipId)
    case None => Err(RequestNotFound)
    case Some(k) =>
      if fs[k].data.addresseeId != caller then Err(NotAuthorized)
      else if fs[k].data.status != Pending then Err(RequestAlreadyProcessed)
      else Ok(k)
  }

  /** `acceptRequest({ friendshipId })`: the pending request addressed to the caller becomes
      accepted, and its requester is notified. */
  function Accept(t: Tables, caller: UserId, friendshipId: Id, now: int): (r: Step<Id>)
    ensures r.result.Err? ==> r.tables == t
    ensures r.result.Ok? ==> r.result.value == friendshipId && |r.tables.friendships| == |t.friendships|
  {
    match CheckAnswer(t.friendships, caller, friendshipId)
    case Err(e) => Step(t, Err(e))
    case Ok(k) =>
      Step(Notify(SetStatus(t, k, Accepted), t.friendships[k].data.requesterId, caller, FriendAccepted, now),
           Ok(friendshipId))
  }

  /** `rejectRequest({ friendshipId })`: the pending request addressed to the caller becomes
      rejected; nobody is notified. */
  function Reject(t: Tables, caller: UserId, friendshipId: Id): (r: Step<Id>)
    ensures r.result.Err? ==> r.tables == t
    ensures r.result.Ok? ==> r.result.value == friendshipId && r.tables.notifications == t.notifications
  {
    match CheckAnswer(t.friendships, caller, friendshipId)
    case Err(e) => Step(t, Err(e))
    case Ok(k) => Step(SetStatus(t, k, Rejected), Ok(friendshipId))
  }

  /** A successful accept makes the requester and the caller friends, in both directions,
      and sends the requester a `friend_accepted` notification from the caller. */
  lemma AcceptMakesFriends(t: Tables, caller: UserId, friendshipId: Id, now: int)
    requires PairsUnique(t.friendships)
    requires Accept(t, caller, friendshipId, now).result.Ok?
    ensures var k := IndexOf(t.friendships, friendshipId).value;
      var r, requester := Accept(t, caller, friendshipId, now), t.friendships[k].data.requesterId;
      && PairsUnique(r.tables.friendships)
      && AreFriends(r.tables.friendships, requester, caller)
      && AreFriends(r.tables.friendships, caller, requester)
      && |r.tables.friendships| == |t.friendships|
      && r.tables.friendships[k].data == t.friendships[k].data.(status := Accepted)
      && (forall j :: 0 <= j < |t.friendships| && j != k ==> r.tables.friendships[j] == t.friendships[j])
      && r.tables.notifications == t.notifications + [Doc(t.nextId, now, FriendNote(requester, caller, FriendAccepted))]
  {
    var k := IndexOf(t.friendships, friendshipId).value;
    var fs := Accept(t, caller, friendshipId, now).tables.friendships;
    var requester := t.friendships[k].data.requesterId;
    assert AcceptedBetween(fs[k], requester, caller);
    assert AcceptedBetween(fs[k], caller, requester);
  }

  /** A successful reject leaves the record rejected and every other record as it was. */
  lemma RejectMeaning(t: Tables, caller: UserId, friendshipId: Id)
    requires Reject(t, caller, friendshipId).result.Ok?
    ensures var k := IndexOf(t.friendships, friendshipId).value;
      var fs := Reject(t, caller, friendshipId).tables.friendships;
      && |fs| == |t.friendships|
      && fs[k].data == t.friendships[k].data.(status := Rejected)
      && forall j :: 0 <= j < |fs| && j != k ==> fs[j] == t.friendships[j]
  {
  }

  /** `acceptRequest` against the store. */
  method AcceptRequest(db: Database, caller: UserId, friendshipId: Id, now: int) returns (r: Result<Id, Error>)
    requires db.Valid()
    modifies db
    ensures db.Valid()
    ensures Step(db.State(), r) == Accept(old(db.State()), caller, friendshipId, now)
  {
    var k := IndexOf(db.friendships, friendshipId);
    if k.None? {
      return Err(RequestNotFound);
    }
    var friendship := db.friendships[k.value].data;
    if friendship.addresseeId != caller {
      return Err(NotAuthorized);
    }
    if friendship.status != Pending {
      return Err(RequestAlreadyProcessed);
    }
    db.PatchFriendship(k.value, Accepted);
    var _ := db.InsertNotification(FriendNote(friendship.requesterId, caller, FriendAccepted), now);
    return Ok(friendshipId);
  }

  /** `rejectRequest` against the store. */
  method RejectRequest(db: Database, caller: UserId, friendshipId: Id) returns (r: Result<Id, Error>)
    requires db.Valid()
    modifies db
    ensures db.Valid()
    ensures Step(db.State(), r) == Reject(old(db.State()), caller, friendshipId)
  {
    var k := IndexOf(db.friendships, friendshipId);
    if k.None? {
      return Err(RequestNotFound);
    }
    var friendship := db.friendships[k.value].data;
    if friendship.addresseeId != caller {
      return Err(NotAuthorized);
    }
    if friendship.status != Pending {
      return Err(RequestAlreadyProcessed);
    }
    db.PatchFriendship(k.value, Rejected);
    return Ok(friendshipId);
  }

  // ---------------------------------------------------------------------------------------
  // removeFriend
  // ---------------------------------------------------------------------------------------

  /** `removeFriend({ friendId })`: delete the caller's record to the friend if there is one,
      else the friend's record to the caller, whatever its status. */
  function Remove(t: Tables, caller: UserId, friendId: UserId): (r: Step<()>)
    ensures r.result.Err? ==> r.tables == t
    ensures r.result.Err? <==> FindPair(t.friendships, caller, friendId).None? && FindPair(t.friendships, friendId, caller).None?
    ensures r.result.Err? ==> r.result.error == FriendshipNotFound
    ensures r.tables.notifications == t.notifications && r.tables.nextId == t.nextId
  {
    match FindPair(t.friendships, caller, friendId)
    case Some(k) => Step(t.(friendships := Delete(t.friendships, k)), Ok(()))
    case None =>
      match FindPair(t.friendships, friendId, caller)
      case Some(k) => Step(t.(friendships := Delete(t.friendships, k)), Ok(()))
      case None => Step(t, Err(FriendshipNotFound))
  }

  /** A successful removal deletes exactly one record, and it is a record between the two;
      the caller's own record goes first. */
  lemma RemoveMeaning(t: Tables, caller: UserId, friendId: UserId)
    requires Remove(t, caller, friendId).result.Ok?
    ensures var fs, fs' := t.friendships, Remove(t, caller, friendId).tables.friendships;
      exists k :: 0 <= k < |fs| && fs' == Delete(fs, k)
        && (IsPair(fs[k], caller, friendId)
            || (IsPair(fs[k], friendId, caller) && FindPair(fs, caller, friendId).None?))
  {
    var fs := t.friendships;
    match FindPair(fs, caller, friendId)
    case Some(k) =>
      assert IsPair(fs[k], caller, friendId);
    case None =>
      var k := FindPair(fs, friendId, caller).value;
      assert IsPair(fs[k], friendId, caller);
  }

  /** With one record per ordered pair, after a removal the caller has no record to the
      friend left, and if it had none, the friend has none to the caller left. */
  lemma RemoveLeavesNoRecord(t: Tables, caller: UserId, friendId: UserId)
    requires PairsUnique(t.friendships) && Remove(t, caller, friendId).result.Ok?
    ensures var fs := Remove(t, caller, friendId).tables.friendships;
      && FindPair(fs, caller, friendId).None?
      && (FindPair(t.friendships, caller, friendId).None? ==> FindPair(fs, friendId, caller).None?)
  {
    var fs := t.friendships;
    var fs' := Remove(t, caller, friendId).tables.friendships;
    var out := FindPair(fs, caller, friendId);
    var k := if out.Some? then out.value else FindPair(fs, friendId, caller).value;
    assert fs' == Delete(fs, k);
    forall j | 0 <= j < |fs'|
      ensures !IsPair(fs'[j], caller, friendId)
      ensures out.None? ==> !IsPair(fs'[j], friendId, caller)
    {
      var i := if j < k then j else j + 1;
      assert fs'[j] == fs[i] && i != k;
    }
  }

  /** The tables of the scenario below after its first two steps. */
  lemma ScenarioRejected()
    ensures var t := Reject(Send(Tables([], [], [], [], 0), "a", "b", 0).tables, "b", 0).tables;
      t.friendships == [Doc(0, 0, Friendship("a", "b", Rejected))] && t.nextId == 2
  {
    var t1 := Send(Tables([], [], [], [], 0), "a", "b", 0).tables;
    assert t1.friendships == [Doc(0, 0, Friendship("a", "b", Pending))];
  }

  /** The tables of the scenario below after its next two steps. */
  lemma ScenarioAccepted(t: Tables)
    requires t.friendships == [Doc(0, 0, Friendship("a", "b", Rejected))] && t.nextId == 2
    ensures Accept(Send(t, "b", "a", 0).tables, "a", 2, 0).tables.friendships
         == [Doc(0, 0, Friendship("a", "b", Rejected)), Doc(2, 0, Friendship("b", "a", Accepted))]
  {
    assert FindPair(t.friendships, "b", "a").None?;
    var t3 := Send(t, "b", "a", 0).tables;
    assert t3.friendships == [Doc(0, 0, Friendship("a", "b", Rejected)), Doc(2, 0, Friendship("b", "a", Pending))];
  }

  /** The last step of the scenario below: a removes b. */
  lemma ScenarioRemoved(t: Tables)
    requires t.friendships == [Doc(0, 0, Friendship("a", "b", Rejected)), Doc(2, 0, Friendship("b", "a", Accepted))]
    ensures PairsUnique(t.friendships) && AreFriends(t.friendships, "a", "b")
    ensures var r := Remove(t, "a", "b");
      r.result.Ok? && PairsUnique(r.tables.friendships) && AreFriends(r.tables.friendships, "a", "b")
  {
    assert AcceptedBetween(t.friendships[1], "a", "b");
    var fs := Remove(t, "a", "b").tables.friendships;
    assert fs == [Doc(2, 0, Friendship("b", "a", Accepted))];
    assert AcceptedBetween(fs[0], "a", "b");
  }

  /** The removal as written can leave two users friends. User a asks b, b rejects (the
      record a -> b is rejected), b asks a (a new record b -> a, since the incoming one is
      rejected), a accepts: a and b are friends. Then a removes b: the rejected a -> b
      record is deleted and the accepted b -> a record stays. */
  lemma RemoveCanKeepFriends()
    ensures var t0 := Tables([], [], [], [], 0);
      var t1 := Send(t0, "a", "b", 0).tables;
      var t2 := Reject(t1, "b", 0).tables;
      var t3 := Send(t2, "b", "a", 0).tables;
      var t4 := Accept(t3, "a", 2, 0).tables;
      var r := Remove(t4, "a", "b");
      && PairsUnique(t4.friendships) && AreFriends(t4.friendships, "a", "b")
      && r.result.Ok? && PairsUnique(r.tables.friendships) && AreFriends(r.tables.friendships, "a", "b")
  {
    ScenarioRejected();
    var t2 := Reject(Send(Tables([], [], [], [], 0), "a", "b", 0).tables, "b", 0).tables;
    ScenarioAccepted(t2);
    ScenarioRemoved(Accept(Send(t2, "b", "a", 0).tables, "a", 2, 0).tables);
  }

  /** Two steps after the state of `ScenarioAccepted`, in which b -> a is accepted and
      a -> b rejected. First a asks b again: the outgoing record is rejected, so it is
      re-opened although the two are friends. Then b accepts it. Two accepted records now
      link a and b, and a's friend list names b twice. */
  lemma ListCanRepeatFriend(t: Tables)
    requires t.friendships == [Doc(0, 0, Friendship("a", "b", Rejected)), Doc(2, 0, Friendship("b", "a", Accepted))]
    ensures AreFriends(t.friendships, "a", "b")
    ensures var r5 := Send(t, "a", "b", 0);
      var r6 := Accept(r5.tables, "b", 0, 0);
      && r5.result == Ok(0) && r6.result == Ok(0)
      && PairsUnique(r6.tables.friendships)
      && ListFriends(r6.tables.friendships, "a") == ["b", "b"]
  {
    assert AcceptedBetween(t.friendships[1], "a", "b");
    var fs5 := Send(t, "a", "b", 0).tables.friendships;
    assert fs5 == [Doc(0, 0, Friendship("a", "b", Pending)), Doc(2, 0, Friendship("b", "a", Accepted))];
    var fs6 := Accept(Send(t, "a", "b", 0).tables, "b", 0, 0).tables.friendships;
    assert fs6 == [Doc(0, 0, Friendship("a", "b", Accepted)), Doc(2, 0, Friendship("b", "a", Accepted))];
    ListFriendsBothWays(fs6);
  }

  /** Accepted records both ways between a and b name b twice in a's list. */
  lemma ListFriendsBothWays(fs: seq<Doc<Friendship>>)
    requires fs == [Doc(0, 0, Friendship("a", "b", Accepted)), Doc(2, 0, Friendship("b", "a", Accepted))]
    ensures ListFriends(fs, "a") == ["b", "b"]
  {
    FilterTwo(fs[0], fs[1], (f: Doc<Friendship>) => OutgoingAccepted(f, "a"));
    FilterTwo(fs[0], fs[1], (f: Doc<Friendship>) => IncomingWith(f, "a", Accepted));
  }

  /** The removal the handler evidently intends: delete whichever records there are between
      the two, so that a removed friend is no longer a friend. */
  function RemoveBoth(t: Tables, caller: UserId, friendId: UserId): (r: Step<()>)
    requires PairsUnique(t.friendships)
    ensures r.result.Err? <==> FindPair(t.friendships, caller, friendId).None? && FindPair(t.friendships, friendId, caller).None?
    ensures r.result.Err? ==> r.tables == t && r.result.error == FriendshipNotFound
    ensures r.tables.notifications == t.notifications && r.tables.nextId == t.nextId
    ensures PairsUnique(r.tables.friendships)
  {
    var fs := t.friendships;
    var rest := Filter(fs, (f: Doc<Friendship>) => !IsPair(f, caller, friendId) && !IsPair(f, friendId, caller));
    if FindPair(fs, caller, friendId).None? && FindPair(fs, friendId, caller).None? then Step(t, Err(FriendshipNotFound))
    else
      FilterKeepsPairs(fs, (f: Doc<Friendship>) => !IsPair(f, caller, friendId) && !IsPair(f, friendId, caller));
      Step(t.(friendships := rest), Ok(()))
  }

  /** Keeping some of the records keeps one record per ordered pair. */
  lemma {:induction false} FilterKeepsPairs(fs: seq<Doc<Friendship>>, p: Doc<Friendship> -> bool)
    requires PairsUnique(fs)
    ensures PairsUnique(Filter(fs, p))
    decreases |fs|
  {
    if fs != [] {
      var init, last := fs[..|fs| - 1], fs[|fs| - 1];
      assert fs == init + [last];
      FilterKeepsPairs(init, p);
      FilterAppend(init, last, p);
      if p(last) {
        PairsBeforeLast(init, last);
        FilterOtherPairs(init, p, last);
        PairsSnoc(Filter(init, p), last);
      }
    }
  }

  /** The record for another pair than f's. */
  predicate OtherPair(g: Doc<Friendship>, f: Doc<Friendship>)
  {
    !(g.data.requesterId == f.data.requesterId && g.data.addresseeId == f.data.addresseeId)
  }

  lemma PairsBeforeLast(init: seq<Doc<Friendship>>, last: Doc<Friendship>)
    requires PairsUnique(init + [last])
    ensures forall k :: 0 <= k < |init| ==> OtherPair(init[k], last)
  {
    var fs := init + [last];
    forall k | 0 <= k < |init|
      ensures OtherPair(init[k], last)
    {
      assert fs[k] == init[k] && fs[|init|] == last;
    }
  }

  lemma FilterOtherPairs(fs: seq<Doc<Friendship>>, p: Doc<Friendship> -> bool, f: Doc<Friendship>)
    requires forall k :: 0 <= k < |fs| ==> OtherPair(fs[k], f)
    ensures forall i :: 0 <= i < |Filter(fs, p)| ==> OtherPair(Filter(fs, p)[i], f)
  {
    var r := Filter(fs, p);
    forall i | 0 <= i < |r|
      ensures OtherPair(r[i], f)
    {
      var k :| 0 <= k < |fs| && fs[k] == r[i];
    }
  }

  lemma PairsSnoc(fs: seq<Doc<Friendship>>, f: Doc<Friendship>)
    requires PairsUnique(fs) && forall i :: 0 <= i < |fs| ==> OtherPair(fs[i], f)
    ensures PairsUnique(fs + [f])
  {
  }

  /** After the intended removal the two are no longer friends, and no record between them
      is left. */
  lemma RemoveBothEndsFriendship(t: Tables, caller: UserId, friendId: UserId)
    requires PairsUnique(t.friendships) && RemoveBoth(t, caller, friendId).result.Ok?
    ensures var fs := RemoveBoth(t, caller, friendId).tables.friendships;
      && !AreFriends(fs, caller, friendId) && !AreFriends(fs, friendId, caller)
      && FindPair(fs, caller, friendId).None? && FindPair(fs, friendId, caller).None?
  {
    var fs := RemoveBoth(t, caller, friendId).tables.friendships;
    forall k | 0 <= k < |fs|
      ensures !IsPair(fs[k], caller, friendId) && !IsPair(fs[k], friendId, caller)
    {
    }
  }

  /** `removeFriend` against the store. */
  method RemoveFriend(db: Database, caller: UserId, friendId: UserId) returns (r: Result<(), Error>)
    requires db.Valid()
    modifies db
    ensures db.Valid()
    ensures Step(db.State(), r) == Remove(old(db.State()), caller, friendId)
  {
    var friendship1 := FindPair(db.friendships, caller, friendId);
    if friendship1.Some? {
      db.DeleteFriendship(friendship1.value);
      return Ok(());
    }
    var friendship2 := FindPair(db.friendships, friendId, caller);
    if friendship2.Some? {
      db.DeleteFriendship(friendship2.value);
      return Ok(());
    }
    return Err(FriendshipNotFound);
  }

  // ---------------------------------------------------------------------------------------
  // listFriends, listPendingRequests
  // ---------------------------------------------------------------------------------------

  predicate OutgoingAccepted(f: Doc<Friendship>, user: UserId)
  {
    f.data.requesterId == user && f.data.status == Accepted
  }

  predicate IncomingWith(f: Doc<Friendship>, user: UserId, status: FriendshipStatus)
  {
    f.data.addresseeId == user && f.data.status == status
  }

  /** `listFriends()`: the addressees of the caller's accepted records (the `by_requester`
      index), then the requesters of the accepted records addressed to the caller (the
      `by_addressee_status` index). */
  function ListFriends(fs: seq<Doc<Friendship>>, caller: UserId): seq<UserId>
  {
    Map(Filter(fs, (f: Doc<Friendship>) => OutgoingAccepted(f, caller)), (f: Doc<Friendship>) => f.data.addresseeId)
      + Map(Filter(fs, (f: Doc<Friendship>) => IncomingWith(f, caller, Accepted)), (f: Doc<Friendship>) => f.data.requesterId)
  }

  /** The friend list holds exactly the users the caller is friends with. */
  lemma ListFriendsMeaning(fs: seq<Doc<Friendship>>, caller: UserId, x: UserId)
    requires PairsUnique(fs)
    ensures x in ListFriends(fs, caller) <==> AreFriends(fs, caller, x)
  {
    var a := Map(Filter(fs, (f: Doc<Friendship>) => OutgoingAccepted(f, caller)), (f: Doc<Friendship>) => f.data.addresseeId);
    var b := Map(Filter(fs, (f: Doc<Friendship>) => IncomingWith(f, caller, Accepted)), (f: Doc<Friendship>) => f.data.requesterId);
    assert ListFriends(fs, caller) == a + b;
    OutgoingFriends(fs, caller, x);
    IncomingFriends(fs, caller, x);
    if AreFriends(fs, caller, x) {
      var k :| 0 <= k < |fs| && AcceptedBetween(fs[k], caller, x);
      if IsPair(fs[k], caller, x) {
        assert AcceptedPair(fs, k, caller, x);
      } else {
        assert AcceptedPair(fs, k, x, caller);
      }
    }
  }

  predicate AcceptedPair(fs: seq<Doc<Friendship>>, k: int, requester: UserId, addressee: UserId)
  {
    0 <= k < |fs| && fs[k].data.status == Accepted && IsPair(fs[k], requester, addressee)
  }

  /** The first half of `listFriends()`: those the caller sent a request that was accepted. */
  lemma OutgoingFriends(fs: seq<Doc<Friendship>>, caller: UserId, x: UserId)
    ensures x in Map(Filter(fs, (f: Doc<Friendship>) => OutgoingAccepted(f, caller)), (f: Doc<Friendship>) => f.data.addresseeId)
      <==> exists k :: AcceptedPair(fs, k, caller, x)
  {
    MapFilterMember(fs, (f: Doc<Friendship>) => OutgoingAccepted(f, caller), (f: Doc<Friendship>) => f.data.addresseeId, x);
    if exists k :: AcceptedPair(fs, k, caller, x) {
      var k :| AcceptedPair(fs, k, caller, x);
      assert OutgoingAccepted(fs[k], caller) && fs[k].data.addresseeId == x;
    }
    if exists k :: 0 <= k < |fs| && OutgoingAccepted(fs[k], caller) && fs[k].data.addresseeId == x {
      var k :| 0 <= k < |fs| && OutgoingAccepted(fs[k], caller) && fs[k].data.addresseeId == x;
      assert AcceptedPair(fs, k, caller, x);
    }
  }

  /** The second half: those whose request to the caller the caller accepted. */
  lemma IncomingFriends(fs: seq<Doc<Friendship>>, caller: UserId, x: UserId)
    ensures x in Map(Filter(fs, (f: Doc<Friendship>) => IncomingWith(f, caller, Accepted)), (f: Doc<Friendship>) => f.data.requesterId)
      <==> exists k :: AcceptedPair(fs, k, x, caller)
  {
    MapFilterMember(fs, (f: Doc<Friendship>) => IncomingWith(f, caller, Accepted), (f: Doc<Friendship>) => f.data.requesterId, x);
    if exists k :: AcceptedPair(fs, k, x, caller) {
      var k :| AcceptedPair(fs, k, x, caller);
      assert IncomingWith(fs[k], caller, Accepted) && fs[k].data.requesterId == x;
    }
    if exists k :: 0 <= k < |fs| && IncomingWith(fs[k], caller, Accepted) && fs[k].data.requesterId == x {
      var k :| 0 <= k < |fs| && IncomingWith(fs[k], caller, Accepted) && fs[k].data.requesterId == x;
      assert AcceptedPair(fs, k, x, caller);
    }
  }

  /** An entry of `listPendingRequests()`. */
  datatype PendingRequest = PendingRequest(friendshipId: Id, requesterId: UserId, createdAt: int)

  /** `listPendingRequests()`: the pending records addressed to the caller, in order. */
  function ListPendingRequests(fs: seq<Doc<Friendship>>, caller: UserId): (r: seq<PendingRequest>)
    ensures forall i :: 0 <= i < |r| ==>
      exists k :: 0 <= k < |fs| && IncomingWith(fs[k], caller, Pending)
        && r[i] == PendingRequest(fs[k].id, fs[k].data.requesterId, fs[k].creationTime)
    ensures forall k :: 0 <= k < |fs| && IncomingWith(fs[k], caller, Pending) ==>
      PendingRequest(fs[k].id, fs[k].data.requesterId, fs[k].creationTime) in r
  {
    var pending := Filter(fs, (f: Doc<Friendship>) => IncomingWith(f, caller, Pending));
    var r := Map(pending, (f: Doc<Friendship>) => PendingRequest(f.id, f.data.requesterId, f.creationTime));
    assert forall i :: 0 <= i < |r| ==> r[i] == PendingRequest(pending[i].id, pending[i].data.requesterId, pending[i].creationTime);
    forall k | 0 <= k < |fs| && IncomingWith(fs[k], caller, Pending)
      ensures PendingRequest(fs[k].id, fs[k].data.requesterId, fs[k].creationTime) in r
    {
      assert fs[k] in pending;
      var i :| 0 <= i < |pending| && pending[i] == fs[k];
      assert r[i] == PendingRequest(fs[k].id, fs[k].data.requesterId, fs[k].creationTime);
    }
    r
  }
}
