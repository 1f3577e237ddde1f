/**
 * NotificationService: appending notifications for a user, listing them by
 * read flag, and marking one as read.
 */
module NotificationService {
  import opened Wrappers
  import opened Tables
  import opened Entities
  import opened Store

  datatype NotificationFlag = All | Read | Unread

  const UserNotFound: string := "User not found"
  /** The literal message of the NotFoundRunTimeException thrown when the notification is missing. */
  const NullId: string := "null"
  const InvalidNotificationId: string := "invalid notification id"

  /** The database after appending an unread notification for user with the next id. */
  function Notified(s: State, user: Id, message: string): State
  {
    s.(notifications := s.notifications[s.nextId := Notification(user, false, message)],
       nextId := s.nextId + 1)
  }

  /** Appending a notification for an existing user keeps the database consistent. */
  lemma NotifiedConsistent(s: State, user: Id, message: string)
    requires Consistent(s) && user in s.users
    ensures Consistent(Notified(s, user, message))
  {
    var r := Notified(s, user, message);
    assert KeysBelow(r) by {
      assert Below(r.notifications, r.nextId);
    }
    assert Linked(r) by {
      assert forall k :: k in r.notifications ==> r.notifications[k].user in r.users;
    }
  }

  /** The database after notifying each of users, in order, with the same message. */
  function Broadcast(s: State, users: seq<Id>, message: string): (r: State)
    ensures r.nextId == s.nextId + |users|
    ensures r == s.(notifications := r.notifications, nextId := r.nextId)
    decreases |users|
  {
    if users == [] then s
    else Notified(Broadcast(s, users[..|users| - 1], message), users[|users| - 1], message)
  }

  /**
   * A broadcast gives the i-th user the notification with id nextId + i, and
   * touches no other notification.
   */
  lemma {:induction false} BroadcastDelivers(s: State, users: seq<Id>, message: string)
    ensures var r := Broadcast(s, users, message);
      forall i :: 0 <= i < |users| ==>
        s.nextId + i in r.notifications && r.notifications[s.nextId + i] == Notification(users[i], false, message)
    ensures var r := Broadcast(s, users, message);
      forall k :: k in r.notifications <==> k in s.notifications || s.nextId <= k < s.nextId + |users|
    ensures var r := Broadcast(s, users, message);
      forall k :: k in s.notifications && !(s.nextId <= k < s.nextId + |users|) ==> r.notifications[k] == s.notifications[k]
    decreases |users|
  {
    if users != [] {
      BroadcastDelivers(s, users[..|users| - 1], message);
    }
  }

  /**
   * Notifying first and then broadcasting appends 1 + |users| notifications,
   * first's at the next id and users[i]'s after it, and changes nothing else.
   */
  lemma NotifyThenBroadcast(s: State, first: Id, firstMessage: string, users: seq<Id>, message: string)
    ensures var r := Broadcast(Notified(s, first, firstMessage), users, message);
      && r.nextId == s.nextId + 1 + |users|
      && r == s.(notifications := r.notifications, nextId := r.nextId)
      && (forall k :: k in r.notifications <==> k in s.notifications || s.nextId <= k <= s.nextId + |users|)
      && (forall k :: k in s.notifications && !(s.nextId <= k <= s.nextId + |users|) ==> r.notifications[k] == s.notifications[k])
      && r.notifications[s.nextId] == Notification(first, false, firstMessage)
      && (forall i :: 0 <= i < |users| ==> r.notifications[s.nextId + 1 + i] == Notification(users[i], false, message))
  {
    var s1 := Notified(s, first, firstMessage);
    BroadcastDelivers(s1, users, message);
  }

  /** Notifying existing users keeps the database consistent. */
  lemma {:induction false} BroadcastConsistent(s: State, users: seq<Id>, message: string)
    requires Consistent(s) && forall i :: 0 <= i < |users| ==> users[i] in s.users
    ensures Consistent(Broadcast(s, users, message))
    decreases |users|
  {
    if users != [] {
      var front := users[..|users| - 1];
      BroadcastConsistent(s, front, message);
      NotifiedConsistent(Broadcast(s, front, message), users[|users| - 1], message);
    }
  }

  /** The database after notification id has been marked read. */
  function MarkedRead(s: State, id: Id): State
    requires id in s.notifications
  {
    s.(notifications := s.notifications[id := s.notifications[id].(isRead := true)])
  }

  /** Marking a notification read is idempotent, and a no-op on one that is already read. */
  lemma MarkedReadIdempotent(s: State, id: Id)
    requires id in s.notifications
    ensures MarkedRead(MarkedRead(s, id), id) == MarkedRead(s, id)
    ensures s.notifications[id].isRead ==> MarkedRead(s, id) == s
  {
    if s.notifications[id].isRead {
      assert s.notifications[id := s.notifications[id].(isRead := true)] == s.notifications;
    }
  }

  /**
   * GetNotifications: the user's notifications for flag All; for Read and for
   * Unread the user's notifications whose isRead is true (both branches run the
   * same query), in id order. Any other flag is unreachable.
   */
  function GetNotifications(s: State, userId: Id, flag: NotificationFlag): (r: seq<Keyed<Notification>>)
    ensures Increasing(r)
    ensures forall i :: 0 <= i < |r| ==>
      r[i].id in s.notifications && s.notifications[r[i].id] == r[i].val && r[i].val.user == userId
    ensures flag == All ==>
      forall k :: k in s.notifications && s.notifications[k].user == userId ==> Keyed(k, s.notifications[k]) in r
    ensures flag != All ==>
      forall k :: k in s.notifications && s.notifications[k].user == userId ==>
        (Keyed(k, s.notifications[k]) in r <==> s.notifications[k].isRead)
  {
    match flag
    case All => Select(s.notifications, (n: Notification) => n.user == userId)
    case Read => Select(s.notifications, (n: Notification) => n.user == userId && n.isRead == true)
    case Unread => Select(s.notifications, (n: Notification) => n.user == userId && n.isRead == true)
  }

  /** As written, the Unread listing holds only notifications that have been read: it equals the Read listing. */
  lemma UnreadListsReadNotifications(s: State, userId: Id)
    ensures GetNotifications(s, userId, Unread) == GetNotifications(s, userId, Read)
    ensures forall i :: 0 <= i < |GetNotifications(s, userId, Unread)| ==> GetNotifications(s, userId, Unread)[i].val.isRead
  {
  }

  class NotificationService {
    const db: Database

    constructor (db: Database)
      ensures this.db == db
    {
      this.db := db;
    }

    /** notifyUser: append one unread notification for an existing user; fail UserNotFound otherwise. */
    method NotifyUser(userId: Id, message: string) returns (r: Result<()>)
      requires db.Valid()
      modifies db
      ensures db.Valid()
      ensures userId !in old(db.tables.users) ==>
        r.FailsWith(NotFound, UserNotFound) && db.tables == old(db.tables)
      ensures userId in old(db.tables.users) ==>
        r.Ok? && db.tables == Notified(old(db.tables), userId, message)
    {
      if userId !in db.tables.users {
        return Err(Failure(NotFound, UserNotFound));
      }
      NotifiedConsistent(db.tables, userId, message);
      var id := db.NewId();
      db.tables := db.tables.(notifications := db.tables.notifications[id := Notification(userId, false, message)]);
      r := Ok(());
    }

    /**
     * ReadNotification: fail NullId for a missing id and InvalidNotificationId
     * when it belongs to another user; otherwise mark it read (saving only when it
     * was unread) and return it.
     */
    method ReadNotification(userId: Id, notificationId: Id) returns (r: Result<Keyed<Notification>>)
      requires db.Valid()
      modifies db
      ensures db.Valid()
      ensures notificationId !in old(db.tables.notifications) ==>
        r.FailsWith(NotFound, NullId) && db.tables == old(db.tables)
      ensures notificationId in old(db.tables.notifications) && old(db.tables.notifications[notificationId]).user != userId ==>
        r.FailsWith(Unauthorized, InvalidNotificationId) && db.tables == old(db.tables)
      ensures notificationId in old(db.tables.notifications) && old(db.tables.notifications[notificationId]).user == userId ==>
        && r == Ok(Keyed(notificationId, old(db.tables.notifications[notificationId]).(isRead := true)))
        && db.tables == MarkedRead(old(db.tables), notificationId)
    {
      if notificationId !in db.tables.notifications {
        return Err(Failure(NotFound, NullId));
      }
      var n := db.tables.notifications[notificationId];
      if n.user != userId {
        return Err(Failure(Unauthorized, InvalidNotificationId));
      }
      MarkedReadIdempotent(db.tables, notificationId);
      if !n.isRead {
        n := n.(isRead := true);
        db.tables := db.tables.(notifications := db.tables.notifications[notificationId := n]);
      }
      r := Ok(Keyed(notificationId, n));
    }
  }
}
