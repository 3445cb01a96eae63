/** The notification list and unread counter of src/hooks/useNotifications.ts. Every callback
    is one state step; the database answer (failed or the rows read) is a parameter, and the
    realtime subscription is modelled by the insert it delivers. */
module Notifications {
  import opened Text
  import IdFilter

  datatype Notification = Notification(id: string, kind: string, title: string, message: string,
                                       isRead: bool, createdAt: string)

  /** The row `createNotification` inserts. */
  datatype NotificationInsert = NotificationInsert(userId: string, kind: string, title: string,
                                                   message: string)

  /** `data.filter(n => !n.is_read).length`. */
  function CountUnread(ns: seq<Notification>): (c: nat)
    ensures c <= |ns|
    decreases |ns|
  {
    if ns == [] then 0 else (if ns[0].isRead then 0 else 1) + CountUnread(ns[1..])
  }

  /** How many of the list are unread and carry the id. */
  function CountUnreadWithId(ns: seq<Notification>, id: string): nat
    decreases |ns|
  {
    if ns == [] then 0
    else (if !ns[0].isRead && ns[0].id == id then 1 else 0) + CountUnreadWithId(ns[1..], id)
  }

  /** `prev.map(n => n.id === id ? { ...n, is_read: true } : n)`. */
  function MarkedRead(ns: seq<Notification>, id: string): (r: seq<Notification>)
    ensures |r| == |ns|
    ensures forall k :: 0 <= k < |ns| ==>
              r[k] == if ns[k].id == id then ns[k].(isRead := true) else ns[k]
  {
    seq(|ns|, k requires 0 <= k < |ns| => if ns[k].id == id then ns[k].(isRead := true) else ns[k])
  }

  /** `prev.map(n => ({ ...n, is_read: true }))`. */
  function AllRead(ns: seq<Notification>): (r: seq<Notification>)
    ensures |r| == |ns|
    ensures forall k :: 0 <= k < |ns| ==> r[k] == ns[k].(isRead := true)
  {
    seq(|ns|, k requires 0 <= k < |ns| => ns[k].(isRead := true))
  }

  /** The id of a notification, the key `prev.filter(n => n.id !== id)` removes by. */
  function NotificationId(n: Notification): string {
    n.id
  }

  /** Marking one id read lowers the number of unread items by the unread items with that id
      and leaves everything else as it was. */
  lemma {:induction false} MarkedReadCount(ns: seq<Notification>, id: string)
    ensures CountUnread(MarkedRead(ns, id)) == CountUnread(ns) - CountUnreadWithId(ns, id)
    decreases |ns|
  {
    if ns != [] {
      MarkedReadCount(ns[1..], id);
      assert MarkedRead(ns, id)[1..] == MarkedRead(ns[1..], id);
    }
  }

  /** Removing an id lowers the number of unread items by the unread items with that id. */
  lemma {:induction false} WithoutCount(ns: seq<Notification>, id: string)
    ensures CountUnread(IdFilter.Without(ns, NotificationId, id))
            == CountUnread(ns) - CountUnreadWithId(ns, id)
    decreases |ns|
  {
    if ns != [] {
      WithoutCount(ns[1..], id);
      var head := if ns[0].id == id then [] else [ns[0]];
      var rest := IdFilter.Without(ns[1..], NotificationId, id);
      assert IdFilter.Without(ns, NotificationId, id) == head + rest;
      CountUnreadAppend(head, rest);
      assert [ns[0]][1..] == [];
    }
  }

  lemma {:induction false} CountUnreadAppend(xs: seq<Notification>, ys: seq<Notification>)
    ensures CountUnread(xs + ys) == CountUnread(xs) + CountUnread(ys)
    decreases |xs|
  {
    if xs == [] {
      assert xs + ys == ys;
    } else {
      assert (xs + ys)[1..] == xs[1..] + ys;
      CountUnreadAppend(xs[1..], ys);
    }
  }

  /** After marking everything read nothing is unread. */
  lemma {:induction false} AllReadCount(ns: seq<Notification>)
    ensures CountUnread(AllRead(ns)) == 0
    decreases |ns|
  {
    if ns != [] {
      AllReadCount(ns[1..]);
      assert AllRead(ns)[1..] == AllRead(ns[1..]);
    }
  }

  class NotificationCenter {
    var notifications: seq<Notification>
    /** A `nat`: every step keeps the counter at zero or above. */
    var unreadCount: nat

    constructor()
      ensures notifications == [] && unreadCount == 0
    {
      notifications := [];
      unreadCount := 0;
    }

    /** The counter agrees with the list. Fetching and marking all read restore this; the
        other steps keep it only in the cases the lemmas below name. */
    predicate CountAgrees()
      reads this
    {
      unreadCount == CountUnread(notifications)
    }

    /** `fetchNotifications`: without a user, or on an error or null data, nothing changes;
        otherwise the rows read (newest first, at most 50) replace the list and the counter is
        their number of unread items. */
    method Fetch(user: Option<string>, rows: Option<seq<Notification>>)
      modifies this
      ensures user.None? || rows.None? ==>
                notifications == old(notifications) && unreadCount == old(unreadCount)
      ensures user.Some? && rows.Some? ==> notifications == rows.value && CountAgrees()
    {
      if user.None? {
        return;
      }
      if rows.Some? {
        notifications := rows.value;
        unreadCount := CountUnread(rows.value);
      }
    }

    /** `markAsRead`: on success the items with the id are read and the counter drops by one,
        but not below zero, whether or not the item was unread. */
    method MarkAsRead(user: Option<string>, id: string, failed: bool)
      modifies this
      ensures user.None? || failed ==>
                notifications == old(notifications) && unreadCount == old(unreadCount)
      ensures user.Some? && !failed ==>
                notifications == MarkedRead(old(notifications), id)
                && unreadCount == if old(unreadCount) > 0 then old(unreadCount) - 1 else 0
    {
      if user.None? || failed {
        return;
      }
      notifications := MarkedRead(notifications, id);
      unreadCount := if unreadCount - 1 > 0 then unreadCount - 1 else 0;
    }

    /** `markAllAsRead`: on success every item is read and the counter is zero. */
    method MarkAllAsRead(user: Option<string>, failed: bool)
      modifies this
      ensures user.None? || failed ==>
                notifications == old(notifications) && unreadCount == old(unreadCount)
      ensures user.Some? && !failed ==>
                notifications == AllRead(old(notifications)) && unreadCount == 0 && CountAgrees()
    {
      if user.None? || failed {
        return;
      }
      notifications := AllRead(notifications);
      unreadCount := 0;
      AllReadCount(old(notifications));
    }

    /** `deleteNotification`: on success the items with the id are removed, in order; the
        counter is not touched. */
    method DeleteNotification(user: Option<string>, id: string, failed: bool)
      modifies this
      ensures user.None? || failed ==> notifications == old(notifications)
      ensures user.Some? && !failed ==>
                notifications == IdFilter.Without(old(notifications), NotificationId, id)
      ensures unreadCount == old(unreadCount)
    {
      if user.None? || failed {
        return;
      }
      notifications := IdFilter.Without(notifications, NotificationId, id);
    }

    /** The realtime INSERT handler: the new notification goes first and the counter grows by
        one, whatever its `is_read`. */
    method RealtimeInsert(n: Notification)
      modifies this
      ensures notifications == [n] + old(notifications)
      ensures unreadCount == old(unreadCount) + 1
    {
      notifications := [n] + notifications;
      unreadCount := unreadCount + 1;
    }

    /** `createNotification`: without a user nothing happens; otherwise the row is inserted
        and, when that succeeded, the list is fetched again. */
    method CreateNotification(user: Option<string>, kind: string, title: string, message: string,
                              failed: bool, refetched: Option<seq<Notification>>)
      returns (insert: Option<NotificationInsert>)
      modifies this
      ensures user.None? ==> insert.None?
      ensures user.Some? ==> insert == Some(NotificationInsert(user.value, kind, title, message))
      ensures user.None? || failed || refetched.None? ==>
                notifications == old(notifications) && unreadCount == old(unreadCount)
      ensures user.Some? && !failed && refetched.Some? ==>
                notifications == refetched.value && CountAgrees()
    {
      if user.None? {
        return None;
      }
      insert := Some(NotificationInsert(user.value, kind, title, message));
      if !failed {
        Fetch(user, refetched);
      }
    }
  }

  /** When the counter agrees with the list, marking an item read keeps it agreeing exactly
      when the id names one unread item, or none while nothing is unread. */
  lemma MarkAsReadKeepsCount(ns: seq<Notification>, id: string)
    ensures var before := CountUnread(ns);
            var after := if before > 0 then before - 1 else 0;
            after == CountUnread(MarkedRead(ns, id))
            <==> CountUnreadWithId(ns, id) == 1 || (before == 0 && CountUnreadWithId(ns, id) == 0)
  {
    MarkedReadCount(ns, id);
  }

  /** When the counter agrees with the list, deleting keeps it agreeing exactly when no unread
      item has the id. */
  lemma DeleteKeepsCount(ns: seq<Notification>, id: string)
    ensures CountUnread(ns) == CountUnread(IdFilter.Without(ns, NotificationId, id))
            <==> CountUnreadWithId(ns, id) == 0
  {
    WithoutCount(ns, id);
  }

  /** When the counter agrees with the list, a realtime insert keeps it agreeing exactly when
      the new item is unread. */
  lemma InsertKeepsCount(ns: seq<Notification>, n: Notification)
    ensures CountUnread(ns) + 1 == CountUnread([n] + ns) <==> !n.isRead
  {
    assert ([n] + ns)[1..] == ns;
  }

  /** The drift: deleting a notification that is unread lowers the number of unread items
      in the list, while `deleteNotification` leaves the counter as it was. */
  lemma DeleteUnreadLeavesCount(ns: seq<Notification>, id: string)
    requires CountUnreadWithId(ns, id) > 0
    ensures CountUnread(IdFilter.Without(ns, NotificationId, id)) < CountUnread(ns)
  {
    WithoutCount(ns, id);
  }
}
