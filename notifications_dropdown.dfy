/** The display rules of src/components/NotificationsDropdown.tsx: the icon of a notification
    type, the unread badge and which buttons are drawn. */
module NotificationsView {
  import opened Text
  import opened Notifications

  /** `getIcon`. */
  function Icon(kind: string): (icon: string) {
    match kind
    case "usage_warning" => "⚠️"
    case "plan_upgrade" => "🎉"
    case "module_tip" => "💡"
    case "welcome" => "👋"
    case _ => "🔔"
  }

  const KnownKinds: seq<string> := ["usage_warning", "plan_upgrade", "module_tip", "welcome"]

  /** The four known types get four different icons, none of them the bell, and every other type
      gets the bell. */
  lemma IconSpec(kind: string)
    ensures kind !in KnownKinds <==> Icon(kind) == "🔔"
    ensures forall i, j :: 0 <= i < j < |KnownKinds| ==> Icon(KnownKinds[i]) != Icon(KnownKinds[j])
  {
  }

  /** The badge is drawn only when something is unread. */
  predicate ShowsBadge(unreadCount: nat) {
    unreadCount > 0
  }

  /** `unreadCount > 9 ? '9+' : unreadCount`. */
  function BadgeText(unreadCount: nat): string {
    if unreadCount > 9 then "9+" else NatToString(unreadCount)
  }

  /** The badge text always fits in two characters: "9+" for more than nine, else the single
      digit of the count. */
  lemma BadgeTextSpec(unreadCount: nat)
    ensures BadgeText(unreadCount) == "9+" <==> unreadCount > 9
    ensures unreadCount <= 9 ==> BadgeText(unreadCount) == [('0' as int + unreadCount) as char]
    ensures 1 <= |BadgeText(unreadCount)| <= 2
  {
  }

  /** The buttons of one item: mark-read only for an unread item, delete always. */
  datatype ItemButtons = ItemButtons(markRead: bool, delete: bool)

  function ButtonsOf(n: Notification): (b: ItemButtons)
    ensures b.markRead <==> !n.isRead
    ensures b.delete
  {
    ItemButtons(!n.isRead, true)
  }

  /** "Mark all read" is drawn only when something is unread. */
  predicate ShowsMarkAll(unreadCount: nat) {
    unreadCount > 0
  }

  /** After a successful "mark all read" step the dropdown shows no badge, no "Mark all read"
      and no item with a mark-read button. */
  lemma AfterMarkAll(ns: seq<Notification>)
    ensures forall k :: 0 <= k < |AllRead(ns)| ==> !ButtonsOf(AllRead(ns)[k]).markRead
    ensures !ShowsBadge(CountUnread(AllRead(ns))) && !ShowsMarkAll(CountUnread(AllRead(ns)))
  {
    AllReadCount(ns);
  }

  /** When the counter agrees with the list, the badge is drawn exactly when some item carries a
      mark-read button. */
  lemma BadgeIffSomeButton(ns: seq<Notification>)
    ensures ShowsBadge(CountUnread(ns)) <==> exists k :: 0 <= k < |ns| && ButtonsOf(ns[k]).markRead
  {
    UnreadIffSome(ns);
  }

  lemma {:induction false} UnreadIffSome(ns: seq<Notification>)
    ensures CountUnread(ns) > 0 <==> exists k :: 0 <= k < |ns| && !ns[k].isRead
    decreases |ns|
  {
    if ns != [] {
      UnreadIffSome(ns[1..]);
      if CountUnread(ns[1..]) > 0 {
        var k :| 0 <= k < |ns[1..]| && !ns[1..][k].isRead;
        assert !ns[k + 1].isRead;
      }
      if exists k :: 0 <= k < |ns| && !ns[k].isRead {
        var k :| 0 <= k < |ns| && !ns[k].isRead;
        if k > 0 {
          assert !ns[1..][k - 1].isRead;
        }
      }
    }
  }
}
