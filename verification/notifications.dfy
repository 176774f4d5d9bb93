/**
 The notification inbox (src/pages/Notifications.tsx): a list of
 notifications with a read flag, a filter chosen by the bar of buttons, the
 two mark-as-read actions, the unread badge, the per-type style lookup and the
 relative-date label.
 */
module Notifications {
  import opened MockData
  import Seqs

  predicate IsUnread(n: Notification)
  {
    !n.isRead
  }

  predicate HasKind(kind: string, n: Notification)
  {
    n.kind == kind
  }

  /* Whether the filter `filter` shows notification `n`, judged entry by entry. */
  predicate Shows(filter: string, n: Notification)
  {
    if filter == "all" then true
    else if filter == "unread" then !n.isRead
    else n.kind == filter
  }

  /* `Shows` as a callback. */
  function Admits(filter: string): Notification -> bool
  {
    n => Shows(filter, n)
  }

  /* `filteredNotifications`: the whole list for "all", the unread entries for
     "unread", and otherwise the entries whose type equals the filter. */
  function Filtered(list: seq<Notification>, filter: string): (r: seq<Notification>)
    ensures forall i :: 0 <= i < |r| ==> r[i] in list && Shows(filter, r[i])
    ensures forall i :: 0 <= i < |list| && Shows(filter, list[i]) ==> list[i] in r
    ensures Seqs.IsSubsequence(r, list)
    ensures filter == "all" ==> r == list
    ensures |r| == Seqs.Count(list, Admits(filter))
  {
    Seqs.FilterLengthIsCount(list, Admits(filter));
    if filter == "all" then
      Seqs.SubsequenceReflexive(list);
      list
    else if filter == "unread" then
      Seqs.FilterAgrees(list, IsUnread, Admits(filter));
      Seqs.Filter(list, IsUnread)
    else
      Seqs.FilterAgrees(list, n => HasKind(filter, n), Admits(filter));
      Seqs.Filter(list, n => HasKind(filter, n))
  }

  /* `unreadCount`. */
  function UnreadCount(list: seq<Notification>): (n: nat)
    ensures n <= |list|
    ensures n == 0 <==> forall i :: 0 <= i < |list| ==> list[i].isRead
  {
    Seqs.Count(list, IsUnread)
  }

  /* The badge equals the number of entries the "unread" filter shows. */
  lemma UnreadCountIsUnreadFilter(list: seq<Notification>)
    ensures UnreadCount(list) == |Filtered(list, "unread")|
  {
    Seqs.FilterLengthIsCount(list, IsUnread);
  }

  /* `b` is `a` with possibly some read flags changed: same length, same
     order, every other field equal. */
  ghost predicate SameButRead(a: seq<Notification>, b: seq<Notification>)
  {
    |a| == |b| && forall i :: 0 <= i < |a| ==> a[i].(isRead := b[i].isRead) == b[i]
  }

  /* No flag went from read back to unread. */
  ghost predicate ReadMonotone(a: seq<Notification>, b: seq<Notification>)
  {
    |a| == |b| && forall i :: 0 <= i < |a| ==> a[i].isRead ==> b[i].isRead
  }

  /* `markAsRead(id)`: every entry with that id becomes read. */
  function MarkAsRead(list: seq<Notification>, id: int): (r: seq<Notification>)
    ensures SameButRead(list, r)
    ensures forall i :: 0 <= i < |list| ==> (r[i].isRead <==> list[i].isRead || list[i].id == id)
  {
    if |list| == 0 then []
    else
      var n := list[0];
      var rest := MarkAsRead(list[1..], id);
      [if n.id == id then n.(isRead := true) else n] + rest
  }

  /* `markAllAsRead()`. */
  function MarkAllAsRead(list: seq<Notification>): (r: seq<Notification>)
    ensures SameButRead(list, r)
    ensures forall i :: 0 <= i < |r| ==> r[i].isRead
  {
    if |list| == 0 then [] else [list[0].(isRead := true)] + MarkAllAsRead(list[1..])
  }

  function NotificationId(n: Notification): int
  {
    n.id
  }

  /* With distinct ids, marking one entry read changes that entry alone. */
  lemma MarkAsReadOnlyTarget(list: seq<Notification>, i: int)
    requires Seqs.DistinctKeys(list, NotificationId)
    requires 0 <= i < |list|
    ensures MarkAsRead(list, list[i].id)[i] == list[i].(isRead := true)
    ensures forall j :: 0 <= j < |list| && j != i ==> MarkAsRead(list, list[i].id)[j] == list[j]
  {
    var r := MarkAsRead(list, list[i].id);
    forall j | 0 <= j < |list| && j != i
      ensures r[j] == list[j]
    {
      assert NotificationId(list[i]) != NotificationId(list[j]);
    }
  }

  /* After marking everything read the badge is zero and "unread" shows nothing. */
  lemma MarkAllClearsUnread(list: seq<Notification>)
    ensures UnreadCount(MarkAllAsRead(list)) == 0
    ensures Filtered(MarkAllAsRead(list), "unread") == []
  {
    UnreadCountIsUnreadFilter(MarkAllAsRead(list));
  }

  /* Marking an id twice is the same as marking it once. */
  lemma MarkAsReadIdempotent(list: seq<Notification>, id: int)
    ensures MarkAsRead(MarkAsRead(list, id), id) == MarkAsRead(list, id)
  {
    var once := MarkAsRead(list, id);
    var twice := MarkAsRead(once, id);
    assert forall i :: 0 <= i < |list| ==> twice[i] == once[i];
  }

  /* An id that no entry carries changes nothing. */
  lemma MarkUnknownIdNoOp(list: seq<Notification>, id: int)
    requires forall i :: 0 <= i < |list| ==> list[i].id != id
    ensures MarkAsRead(list, id) == list
  {
    var r := MarkAsRead(list, id);
    assert forall i :: 0 <= i < |list| ==> r[i] == list[i];
  }

  /* The order in which two entries are marked does not matter. */
  lemma MarkAsReadCommutes(list: seq<Notification>, a: int, b: int)
    ensures MarkAsRead(MarkAsRead(list, a), b) == MarkAsRead(MarkAsRead(list, b), a)
  {
    var ab := MarkAsRead(MarkAsRead(list, a), b);
    var ba := MarkAsRead(MarkAsRead(list, b), a);
    assert forall i :: 0 <= i < |list| ==> ab[i] == ba[i];
  }

  /* Marking read never raises the unread count. */
  lemma {:induction false} MarkAsReadLowersCount(list: seq<Notification>, id: int)
    ensures UnreadCount(MarkAsRead(list, id)) <= UnreadCount(list)
    decreases |list|
  {
    if |list| > 0 {
      MarkAsReadLowersCount(list[1..], id);
      var r := MarkAsRead(list, id);
      assert r[1..] == MarkAsRead(list[1..], id);
    }
  }

  // ---------------------------------------------------------------------------
  // The page as a state machine

  datatype Inbox = Inbox(filter: string, list: seq<Notification>)

  datatype InboxAction = SetFilter(filter: string) | MarkRead(id: int) | MarkAll

  function Apply(s: Inbox, a: InboxAction): Inbox
  {
    match a
    case SetFilter(f) => Inbox(f, s.list)
    case MarkRead(id) => Inbox(s.filter, MarkAsRead(s.list, id))
    case MarkAll => Inbox(s.filter, MarkAllAsRead(s.list))
  }

  function Run(s: Inbox, actions: seq<InboxAction>): Inbox
    decreases |actions|
  {
    if |actions| == 0 then s else Run(Apply(s, actions[0]), actions[1..])
  }

  /* Read monotonicity: no sequence of actions turns a read entry unread, and
     none adds, removes, reorders or edits an entry beyond its read flag. */
  lemma {:induction false} RunReadMonotone(s: Inbox, actions: seq<InboxAction>)
    ensures ReadMonotone(s.list, Run(s, actions).list)
    ensures SameButRead(s.list, Run(s, actions).list)
    decreases |actions|
  {
    if |actions| > 0 {
      var next := Apply(s, actions[0]);
      RunReadMonotone(next, actions[1..]);
      var final := Run(s, actions).list;
      assert final == Run(next, actions[1..]).list;
      forall i | 0 <= i < |s.list|
        ensures s.list[i].isRead ==> final[i].isRead
        ensures s.list[i].(isRead := final[i].isRead) == final[i]
      {
        assert s.list[i].isRead ==> next.list[i].isRead;
      }
    }
  }

  // ---------------------------------------------------------------------------
  // Filter bar and per-type style

  /* The ids of the filter bar's buttons; there is no "general" button. */
  const filterIds: seq<string> := ["all", "unread", "exam", "academic", "deadline", "finance", "event"]

  datatype Icon = AlertCircleIcon | BookOpenIcon | ClockIcon | CreditCardIcon | CalendarIcon | BellIcon

  datatype TypeStyle = TypeStyle(icon: Icon, color: string, bg: string)

  const generalStyle := TypeStyle(BellIcon, "text-muted-foreground", "bg-muted")

  const typeConfigKeys: seq<string> := ["exam", "academic", "deadline", "finance", "event", "general"]

  /* `typeConfig[type] || typeConfig.general`. */
  function StyleFor(kind: string): (c: TypeStyle)
    ensures kind !in typeConfigKeys ==> c == generalStyle
    ensures c == generalStyle <==> kind !in typeConfigKeys[..5]
  {
    if kind == "exam" then TypeStyle(AlertCircleIcon, "text-destructive", "bg-destructive/10")
    else if kind == "academic" then TypeStyle(BookOpenIcon, "text-primary", "bg-primary/10")
    else if kind == "deadline" then TypeStyle(ClockIcon, "text-warning", "bg-warning/10")
    else if kind == "finance" then TypeStyle(CreditCardIcon, "text-success", "bg-success/10")
    else if kind == "event" then TypeStyle(CalendarIcon, "text-accent", "bg-accent/10")
    else generalStyle
  }

  /* Each table key gets its own icon. */
  lemma TypeIcons()
    ensures StyleFor("exam").icon == AlertCircleIcon
    ensures StyleFor("academic").icon == BookOpenIcon
    ensures StyleFor("deadline").icon == ClockIcon
    ensures StyleFor("finance").icon == CreditCardIcon
    ensures StyleFor("event").icon == CalendarIcon
    ensures StyleFor("general").icon == BellIcon
  {
  }

  /* Entries styled as "general" (type "general" or an unknown type) are
     never listed under a type button: only "All" and "Unread" show them. */
  lemma GeneralOnlyUnderAllOrUnread(list: seq<Notification>, filter: string)
    requires filter in filterIds && filter != "all" && filter != "unread"
    ensures forall i :: 0 <= i < |Filtered(list, filter)| ==>
      StyleFor(Filtered(list, filter)[i].kind) != generalStyle
  {
  }

  // ---------------------------------------------------------------------------
  // Relative dates

  const msPerMinute := 60000
  const msPerHour := 3600000
  const msPerDay := 86400000

  /* The label `formatDate` produces; `CalendarDate` is the locale-formatted
     "month day" branch, whose text is not modelled. */
  datatype DateLabel = MinutesAgo(minutes: int) | HoursAgo(hours: int) | Yesterday | DaysAgo(days: int) | CalendarDate

  /* `formatDate` for a difference `diff = now - date` in milliseconds.
     `Math.floor(diff / k)` is floor division, which for the positive
     divisors used here is Dafny's `/`. */
  function FormatDate(diff: int): (l: DateLabel)
    ensures l.MinutesAgo? <==> 0 <= diff < msPerHour
    ensures l.MinutesAgo? ==> 0 <= l.minutes < 60 && l.minutes * msPerMinute <= diff < (l.minutes + 1) * msPerMinute
    ensures l.HoursAgo? <==> msPerHour <= diff < msPerDay
    ensures l.HoursAgo? ==> 1 <= l.hours < 24 && l.hours * msPerHour <= diff < (l.hours + 1) * msPerHour
    ensures l == Yesterday <==> msPerDay <= diff < 2 * msPerDay
    ensures l.DaysAgo? <==> diff < 0 || 2 * msPerDay <= diff < 7 * msPerDay
    ensures l.DaysAgo? ==> l.days * msPerDay <= diff < (l.days + 1) * msPerDay
    ensures l == CalendarDate <==> 7 * msPerDay <= diff
  {
    var days := diff / msPerDay;
    if days == 0 then
      var hours := diff / msPerHour;
      if hours == 0 then MinutesAgo(diff / msPerMinute) else HoursAgo(hours)
    else if days == 1 then Yesterday
    else if days < 7 then DaysAgo(days)
    else CalendarDate
  }

  /* A date up to a week old shows 2 to 6 days; a date in the future (negative
     difference) falls through to the days branch with a negative count. */
  lemma DaysAgoRange(diff: int)
    ensures FormatDate(diff).DaysAgo? && diff >= 0 ==> 2 <= FormatDate(diff).days < 7
    ensures diff < 0 ==> FormatDate(diff).DaysAgo? && FormatDate(diff).days < 0
  {
  }

  /* Three unread entries; marking id 2 leaves ids 1 and 3 under "unread". */
  lemma MarkOneScenario()
    ensures
      var list := [Notification(1, "a", "", "", "exam", false),
                   Notification(2, "b", "", "", "exam", false),
                   Notification(3, "c", "", "", "exam", false)];
      var after := MarkAsRead(list, 2);
      && |Filtered(after, "unread")| == 2
      && Filtered(after, "unread")[0].id == 1 && Filtered(after, "unread")[1].id == 3
      && UnreadCount(after) == 2
  {
    var list := [Notification(1, "a", "", "", "exam", false),
                 Notification(2, "b", "", "", "exam", false),
                 Notification(3, "c", "", "", "exam", false)];
    var after := MarkAsRead(list, 2);
    assert after == [list[0], list[1].(isRead := true), list[2]];
    assert after[1..] == [list[1].(isRead := true), list[2]];
    assert after[2..] == [list[2]];
    assert Filtered(after, "unread") == [list[0], list[2]];
    UnreadCountIsUnreadFilter(after);
  }
}
