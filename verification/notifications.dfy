/**
 * The notification service (`NotificationService`): it stores notifications for users, whether or
 * not the user service confirms the user, and marks them read one at a time or all of a user's.
 */
module Notifications {
  import opened Wrappers
  import opened Sequences
  import opened Tables

  /** The stored `Notification` entity; `kind` is its `type` column. */
  datatype Notification = Notification(
    id: Option<int>, userId: int, message: string, isRead: bool, timestamp: Option<int>, kind: string)

  /** The user record the notification service fetches; only the fields its fallback sets. */
  datatype UserDto = UserDto(id: Option<int>, username: Option<string>, email: Option<string>)

  /** `getUserById` on the user service: the user, or `None` when the call throws. */
  type UserLookup = int -> Option<UserDto>

  /** `UserServiceClientFallback.getUserById`: a placeholder that keeps the requested id. */
  function PlaceholderUser(id: int): (u: UserDto)
    ensures u.id == Some(id) && u.username == Some("Unknown User") && u.email == Some("unknown@workhive.com")
  {
    UserDto(Some(id), Some("Unknown User"), Some("unknown@workhive.com"))
  }

  /** The user client with its fallback: a failed call yields the placeholder user. */
  function UserWithFallback(remote: UserLookup): (lookup: UserLookup)
    ensures forall id :: lookup(id).Some?
    ensures forall id :: remote(id).Some? ==> lookup(id) == remote(id)
    ensures forall id :: remote(id).None? ==> lookup(id) == Some(PlaceholderUser(id))
  {
    id => Some(remote(id).GetOr(PlaceholderUser(id)))
  }

  /**
   * The notification `sendNotification` and its fallback both build: unread, stamped `now`, of
   * the given type or "INFO" when none is given.
   */
  function NewNotification(userId: int, message: string, kind: Option<string>, now: int): (n: Notification)
    ensures n.id.None? && n.userId == userId && n.message == message && n.timestamp == Some(now)
    ensures !n.isRead
    ensures kind.Some? ==> n.kind == kind.value
    ensures kind.None? ==> n.kind == "INFO"
  {
    Notification(None, userId, message, false, Some(now), kind.GetOr("INFO"))
  }

  /** A notification of `userId` not yet read (`findByUserIdAndIsRead(userId, false)`). */
  function UnreadOf(userId: int): (p: Notification -> bool)
    ensures forall n :: p(n) <==> n.userId == userId && !n.isRead
  {
    (n: Notification) => n.userId == userId && !n.isRead
  }

  /** The store after `markAsRead(id)`: that one notification read, nothing else changed. */
  function MarkedRead(t: Table<Notification>, id: int): (after: Table<Notification>)
    requires t.Valid() && id in t.rows
    ensures after.Valid() && after.order == t.order
    ensures after.rows == t.rows[id := t.rows[id].(isRead := true)]
  {
    t.Save(id, t.rows[id].(isRead := true))
  }

  /** Marking a notification read a second time changes nothing. */
  lemma MarkedReadIdempotent(t: Table<Notification>, id: int)
    requires t.Valid() && id in t.rows
    ensures MarkedRead(MarkedRead(t, id), id) == MarkedRead(t, id)
  {
    var once := MarkedRead(t, id);
    assert once.rows[id := once.rows[id].(isRead := true)] == once.rows;
  }

  /** The store after `markAllAsRead(userId)`: that user's unread notifications read, nothing else changed. */
  function AllMarkedRead(t: Table<Notification>, userId: int): (after: Table<Notification>)
    requires t.Valid()
    ensures after.Valid() && after.order == t.order
    ensures after.rows.Keys == t.rows.Keys
    ensures forall k | k in t.rows ::
      after.rows[k] == if UnreadOf(userId)(t.rows[k]) then t.rows[k].(isRead := true) else t.rows[k]
  {
    Table(map k | k in t.rows :: if UnreadOf(userId)(t.rows[k]) then t.rows[k].(isRead := true) else t.rows[k],
          t.order)
  }

  /** After `markAllAsRead(userId)` the user has no unread notification, and other users' are untouched. */
  lemma AllMarkedReadEffect(t: Table<Notification>, userId: int)
    requires t.Valid()
    ensures AllMarkedRead(t, userId).Matching(UnreadOf(userId)) == {}
    ensures forall k | k in t.rows && t.rows[k].userId != userId :: AllMarkedRead(t, userId).rows[k] == t.rows[k]
  {
    var after := AllMarkedRead(t, userId);
    forall k | k in after.rows ensures !UnreadOf(userId)(after.rows[k]) {
    }
  }

  /** Marking all of a user's notifications read twice is the same as once. */
  lemma AllMarkedReadIdempotent(t: Table<Notification>, userId: int)
    requires t.Valid()
    ensures AllMarkedRead(AllMarkedRead(t, userId), userId) == AllMarkedRead(t, userId)
  {
    var once := AllMarkedRead(t, userId);
    var twice := AllMarkedRead(once, userId);
    assert twice.rows == once.rows;
  }

  /** The store with the notifications stored under the keys `done` marked read. */
  ghost function ReadIn(t: Table<Notification>, done: set<int>): Table<Notification>
  {
    Table(map k | k in t.rows :: if k in done then t.rows[k].(isRead := true) else t.rows[k], t.order)
  }

  /** Marking no key read leaves the store as it is. */
  lemma ReadInNone(t: Table<Notification>)
    ensures ReadIn(t, {}) == t
  {
    assert ReadIn(t, {}).rows == t.rows;
  }

  /** Saving one more stored notification marked read extends the set of keys marked. */
  lemma ReadInStep(t: Table<Notification>, done: set<int>, k: int)
    requires t.Valid() && k in t.rows
    ensures ReadIn(t, done).Valid()
    ensures ReadIn(t, done).Save(k, t.rows[k].(isRead := true)) == ReadIn(t, done + {k})
  {
    assert ReadIn(t, done).rows.Keys == t.rows.Keys;
  }

  /** Marking read the keys of a user's unread notifications is what `markAllAsRead` does to the store. */
  lemma ReadInMatching(t: Table<Notification>, userId: int)
    requires t.Valid()
    ensures ReadIn(t, t.Matching(UnreadOf(userId))) == AllMarkedRead(t, userId)
  {
  }

  /** The keys listed in `ks`, as a set. */
  ghost function KeySet(ks: seq<int>): set<int>
  {
    set k | k in ks
  }

  /** Listing one more key adds that key to the set. */
  lemma KeySetSnoc(ks: seq<int>, i: int)
    requires 0 <= i < |ks|
    ensures KeySet(ks[..i + 1]) == KeySet(ks[..i]) + {ks[i]}
  {
    assert ks[..i + 1] == ks[..i] + [ks[i]];
  }

  /**
   * The keys of the notifications `findByUserIdAndIsRead` lists, in its order: each is the key the
   * notification is stored under, and together they are the keys of the user's unread notifications.
   */
  lemma UnreadKeys(t: Table<Notification>, userId: int, unread: seq<Notification>) returns (keys: seq<int>)
    requires t.Valid() && forall k | k in t.rows :: t.rows[k].id == Some(k)
    requires unread == t.Select(UnreadOf(userId))
    ensures |keys| == |unread|
    ensures forall j | 0 <= j < |keys| :: unread[j].id == Some(keys[j]) && keys[j] in t.rows && t.rows[keys[j]] == unread[j]
    ensures KeySet(keys) == t.Matching(UnreadOf(userId))
  {
    keys := seq(|unread|, j requires 0 <= j < |unread| => unread[j].id.GetOr(0));
    forall j | 0 <= j < |keys|
      ensures keys[j] in t.Matching(UnreadOf(userId)) && unread[j].id == Some(keys[j]) && t.rows[keys[j]] == unread[j]
    {
      var k := t.KeyOfSelected(UnreadOf(userId), j);
      assert t.rows[k].id == Some(k);
    }
    forall k | k in t.Matching(UnreadOf(userId)) ensures k in keys {
      assert t.rows[k] in unread;
      var j :| 0 <= j < |unread| && unread[j] == t.rows[k];
      assert keys[j] == k;
    }
  }

  class NotificationService {
    const notifications: Repository<Notification>

    ghost predicate Valid()
      reads this, notifications
    {
      notifications.table.Valid()
      && forall k | k in notifications.table.rows :: notifications.table.rows[k].id == Some(k)
    }

    constructor (notificationRepository: Repository<Notification>)
      requires notificationRepository.table.Valid()
      requires forall k | k in notificationRepository.table.rows :: notificationRepository.table.rows[k].id == Some(k)
      ensures notifications == notificationRepository && Valid()
    {
      notifications := notificationRepository;
    }

    /**
     * `sendNotification`: the user lookup only validates; when it fails the fallback stores the
     * same notification, so either way exactly one new notification is stored and returned.
     */
    method SendNotification(userId: int, message: string, kind: Option<string>, users: UserLookup, now: int, newId: int)
      returns (n: Notification)
      requires Valid() && newId !in notifications.table.rows
      modifies notifications
      ensures Valid()
      ensures n == NewNotification(userId, message, kind, now).(id := Some(newId))
      ensures notifications.table == old(notifications.table).Save(newId, n)
    {
      var user := users(userId);
      if user.None? {
        n := SendNotificationFallback(userId, message, kind, now, newId);
        return;
      }
      n := NewNotification(userId, message, kind, now).(id := Some(newId));
      notifications.Save(newId, n);
    }

    /** `sendNotificationFallback`: stores the notification without the user lookup. */
    method SendNotificationFallback(userId: int, message: string, kind: Option<string>, now: int, newId: int)
      returns (n: Notification)
      requires Valid() && newId !in notifications.table.rows
      modifies notifications
      ensures Valid()
      ensures n == NewNotification(userId, message, kind, now).(id := Some(newId))
      ensures notifications.table == old(notifications.table).Save(newId, n)
    {
      n := NewNotification(userId, message, kind, now).(id := Some(newId));
      notifications.Save(newId, n);
    }

    /** `getUnreadNotifications`: exactly the user's unread notifications, in listing order. */
    function GetUnreadNotifications(userId: int): (r: seq<Notification>)
      reads this, notifications
      requires Valid()
      ensures forall i | 0 <= i < |r| :: r[i] in notifications.table.rows.Values && r[i].userId == userId && !r[i].isRead
      ensures forall k | k in notifications.table.rows && UnreadOf(userId)(notifications.table.rows[k]) ::
        notifications.table.rows[k] in r
    {
      notifications.table.Select(UnreadOf(userId))
    }

    /** `getUnreadCount`: the number of the user's unread notifications, as many as `getUnreadNotifications` lists. */
    function GetUnreadCount(userId: int): (count: nat)
      reads this, notifications
      requires Valid()
      ensures count == |GetUnreadNotifications(userId)|
      ensures count == |notifications.table.Matching(UnreadOf(userId))|
    {
      notifications.table.CountIsMatching(UnreadOf(userId));
      Count(notifications.table.FindAll(), UnreadOf(userId))
    }

    /** `markAsRead`: an unknown id fails and changes nothing; otherwise only that notification's flag is set. */
    method MarkAsRead(id: int) returns (r: Result<Notification>)
      requires Valid()
      modifies notifications
      ensures Valid()
      ensures id !in old(notifications.table.rows) ==>
        r == Failure(NotFound) && notifications.table == old(notifications.table)
      ensures id in old(notifications.table.rows) ==>
        notifications.table == MarkedRead(old(notifications.table), id)
        && r == Success(old(notifications.table.rows[id]).(isRead := true))
    {
      var found := notifications.table.FindById(id);
      if found.None? {
        return Failure(NotFound);
      }
      var n := found.value.(isRead := true);
      notifications.Save(id, n);
      return Success(n);
    }

    /**
     * `markAllAsRead`: reads the user's unread notifications, sets the flag on each and saves them
     * all; the store ends with exactly those notifications read.
     */
    method MarkAllAsRead(userId: int)
      requires Valid()
      modifies notifications
      ensures Valid()
      ensures notifications.table == AllMarkedRead(old(notifications.table), userId)
    {
      var unread := notifications.table.Select(UnreadOf(userId));
      ghost var start := notifications.table;
      ghost var keys := UnreadKeys(start, userId, unread);
      SaveAllRead(unread, keys);
      ReadInMatching(start, userId);
    }

    /**
     * The `forEach(n -> n.setIsRead(true))` and `saveAll` steps of `markAllAsRead`: each listed
     * notification, stored under the key beside it, is saved back read, one after another.
     */
    method SaveAllRead(listed: seq<Notification>, ghost keys: seq<int>)
      requires notifications.table.Valid() && |keys| == |listed|
      requires forall j | 0 <= j < |keys| ::
        listed[j].id == Some(keys[j]) && keys[j] in notifications.table.rows && notifications.table.rows[keys[j]] == listed[j]
      modifies notifications
      ensures notifications.table == ReadIn(old(notifications.table), KeySet(keys))
    {
      ghost var start := notifications.table;
      ReadInNone(start);
      assert keys[..0] == [];
      for i := 0 to |listed|
        invariant notifications.table == ReadIn(start, KeySet(keys[..i]))
      {
        var n := listed[i];
        var k := n.id.value;
        ReadInStep(start, KeySet(keys[..i]), k);
        KeySetSnoc(keys, i);
        notifications.Save(k, n.(isRead := true));
      }
      assert keys[..|listed|] == keys;
    }
  }
}
