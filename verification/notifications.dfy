/** The notifications page: the unread count and the "Mark all as read" button it controls,
    marking one notification read on click, and marking all of them read. */
module Notifications {

  import opened Js
  import Seqs
  import Rows
  import Store

  /** `!n.is_read`: only `true` reads as read, so a `null` flag shows as unread. */
  predicate Unread(n: Rows.NotificationRow)
  {
    !BoolTruthy(n.isRead)
  }

  /** A notification is unread exactly when its flag is `null` or `false`. */
  lemma UnreadIffNullOrFalse(n: Rows.NotificationRow)
    ensures Unread(n) <==> n.isRead.None? || n.isRead == Some(false)
  {
    match n.isRead
    case None =>
    case Some(read) =>
      assert read || n.isRead == Some(false);
  }

  function OwnedBy(user: string): Rows.NotificationRow -> bool
  {
    (n: Rows.NotificationRow) => n.userId == user
  }

  /** The page's list: the signed-in user's notifications, in table order. */
  function Mine(rows: seq<Rows.NotificationRow>, user: string): (r: seq<Rows.NotificationRow>)
    ensures forall n :: n in r <==> n in rows && n.userId == user
  {
    Seqs.Filter(rows, OwnedBy(user))
  }

  /** `unreadCount`: how many listed notifications are unread, one per unread position;
      zero exactly when none is. */
  function UnreadCount(notifications: seq<Rows.NotificationRow>): (r: nat)
    ensures r == |Seqs.Positions(notifications, Unread)|
    ensures r <= |notifications|
    ensures r == 0 <==> forall n :: n in notifications ==> !Unread(n)
  {
    var unread := Seqs.Filter(notifications, Unread);
    Seqs.FilterCountsPositions(notifications, Unread);
    assert unread != [] ==> unread[0] in unread;
    |unread|
  }

  /** "Mark all as read" is offered exactly when something is unread. */
  predicate ShowsMarkAll(notifications: seq<Rows.NotificationRow>)
  {
    UnreadCount(notifications) > 0
  }

  /** The button is shown exactly when some listed notification is unread. */
  lemma MarkAllShownIffSomeUnread(notifications: seq<Rows.NotificationRow>)
    ensures ShowsMarkAll(notifications) <==> exists n :: n in notifications && Unread(n)
  {
  }

  /** The `{ is_read: true }` patch. */
  function SetRead(): Rows.NotificationRow -> Rows.NotificationRow
  {
    (n: Rows.NotificationRow) => n.(isRead := Some(true))
  }

  function IdIs(id: string): Rows.NotificationRow -> bool
  {
    (n: Rows.NotificationRow) => n.id == id
  }

  /** The table after `markRead(id)`: rows with that id are read, every other row is as it was. */
  function WithRead(rows: seq<Rows.NotificationRow>, id: string): (r: seq<Rows.NotificationRow>)
    ensures |r| == |rows|
    ensures forall i :: 0 <= i < |rows| && rows[i].id == id ==> r[i] == rows[i].(isRead := Some(true))
    ensures forall i :: 0 <= i < |rows| && rows[i].id != id ==> r[i] == rows[i]
  {
    Store.Patched(rows, IdIs(id), SetRead())
  }

  /** Position by position, what `a` keeps `b` keeps too, so `a`'s filter is no longer. */
  lemma {:induction false} FilterCountPointwise(a: seq<Rows.NotificationRow>, b: seq<Rows.NotificationRow>, p: Rows.NotificationRow -> bool)
    requires |a| == |b|
    requires forall i :: 0 <= i < |a| && p(a[i]) ==> p(b[i])
    ensures |Seqs.Filter(a, p)| <= |Seqs.Filter(b, p)|
  {
    if a != [] {
      assert forall i :: 0 <= i < |a[1..]| && p(a[1..][i]) ==> p(b[1..][i]) by {
        forall i | 0 <= i < |a[1..]| && p(a[1..][i]) ensures p(b[1..][i]) {
          assert a[1..][i] == a[i + 1] && b[1..][i] == b[i + 1];
        }
      }
      FilterCountPointwise(a[1..], b[1..], p);
    }
  }

  /** Marking one notification read never raises the unread count. */
  lemma MarkReadNeverAddsUnread(notifications: seq<Rows.NotificationRow>, id: string)
    ensures UnreadCount(WithRead(notifications, id)) <= UnreadCount(notifications)
  {
    FilterCountPointwise(WithRead(notifications, id), notifications, Unread);
  }

  /** A click on a notification: an unread one is marked read by id; a read one writes nothing.
      The update's error is not inspected, so a refused write just leaves the table. */
  method Click(notifications: Store.Table<Rows.NotificationRow>, n: Rows.NotificationRow, accepted: bool)
    modifies notifications
    ensures Unread(n) && accepted ==> notifications.rows == WithRead(old(notifications.rows), n.id)
    ensures !Unread(n) || !accepted ==> notifications.rows == old(notifications.rows)
  {
    if Unread(n) && accepted {
      notifications.Update(IdIs(n.id), SetRead());
    }
  }

  /** `.eq("user_id", user).eq("is_read", false)`: the rows `markAllRead` selects as written. */
  function FalseFlagOf(user: string): Rows.NotificationRow -> bool
  {
    (n: Rows.NotificationRow) => n.userId == user && n.isRead == Some(false)
  }

  /** `markAllRead` as written: the user's rows whose flag is `false` are marked read; rows
      with a `null` flag and other users' rows are left as they are. */
  function MarkAllReadAsWritten(rows: seq<Rows.NotificationRow>, user: string): (r: seq<Rows.NotificationRow>)
    ensures |r| == |rows|
    ensures forall i :: 0 <= i < |rows| && rows[i].userId == user && rows[i].isRead == Some(false) ==>
              r[i] == rows[i].(isRead := Some(true))
    ensures forall i :: 0 <= i < |rows| && (rows[i].userId != user || rows[i].isRead != Some(false)) ==>
              r[i] == rows[i]
  {
    Store.Patched(rows, FalseFlagOf(user), SetRead())
  }

  /** A notification of the user's with a `null` flag is counted as unread before and after
      `markAllRead` as written, so the count never reaches zero and the button stays. */
  lemma NullFlagSurvivesMarkAll(rows: seq<Rows.NotificationRow>, user: string, i: int)
    requires 0 <= i < |rows| && rows[i].userId == user && rows[i].isRead.None?
    ensures UnreadCount(Mine(rows, user)) > 0
    ensures UnreadCount(Mine(MarkAllReadAsWritten(rows, user), user)) > 0
  {
    var after := MarkAllReadAsWritten(rows, user);
    assert rows[i] in Mine(rows, user);
    assert after[i] == rows[i];
    assert after[i] in Mine(after, user);
  }

  /** Repeating `markAllRead` as written changes nothing further. */
  lemma MarkAllReadAsWrittenIdempotent(rows: seq<Rows.NotificationRow>, user: string)
    ensures MarkAllReadAsWritten(MarkAllReadAsWritten(rows, user), user) == MarkAllReadAsWritten(rows, user)
  {
    Store.PatchedTwice(rows, FalseFlagOf(user), SetRead());
  }

  /** The rows the button is meant to clear: every unread notification of the user. */
  function UnreadOf(user: string): Rows.NotificationRow -> bool
  {
    (n: Rows.NotificationRow) => n.userId == user && Unread(n)
  }

  /** `markAllRead` as intended: every unread notification of the user, `null` flag included,
      is marked read; other users' rows and rows already read are left as they are. */
  function AllRead(rows: seq<Rows.NotificationRow>, user: string): (r: seq<Rows.NotificationRow>)
    ensures |r| == |rows|
    ensures forall i :: 0 <= i < |rows| && rows[i].userId == user ==> !Unread(r[i])
    ensures forall i :: 0 <= i < |rows| && rows[i].userId == user && Unread(rows[i]) ==>
              r[i] == rows[i].(isRead := Some(true))
    ensures forall i :: 0 <= i < |rows| && rows[i].userId != user ==> r[i] == rows[i]
    ensures forall i :: 0 <= i < |rows| && !Unread(rows[i]) ==> r[i] == rows[i]
  {
    Store.Patched(rows, UnreadOf(user), SetRead())
  }

  /** After marking all read, the user's unread count is zero and the button disappears. */
  lemma AllReadClearsCount(rows: seq<Rows.NotificationRow>, user: string)
    ensures UnreadCount(Mine(AllRead(rows, user), user)) == 0
  {
    var after := AllRead(rows, user);
    forall n | n in Mine(after, user) ensures !Unread(n) {
      var i :| 0 <= i < |after| && after[i] == n;
      assert rows[i].userId == user;
    }
  }

  /** Marking all read twice is the same as once. */
  lemma AllReadIdempotent(rows: seq<Rows.NotificationRow>, user: string)
    ensures AllRead(AllRead(rows, user), user) == AllRead(rows, user)
  {
    Store.PatchedTwice(rows, UnreadOf(user), SetRead());
  }

  /** The "Mark all as read" button, with the corrected selector. */
  method MarkAllRead(notifications: Store.Table<Rows.NotificationRow>, user: string, accepted: bool)
    modifies notifications
    ensures accepted ==> notifications.rows == AllRead(old(notifications.rows), user)
    ensures !accepted ==> notifications.rows == old(notifications.rows)
  {
    if accepted {
      notifications.Update(UnreadOf(user), SetRead());
    }
  }
}
