/**
  The notification store of lib/notifications.py: one list of notification
  records shared by all users, with appends, per-user views ordered by
  priority and age, read marks, per-user clearing and age-based cleanup.

  The store is the list the JSON file holds; the functions take it and
  return the list that would be saved. Clock readings are parameters.
*/
module Notifications {
  import opened Wrappers
  import opened Text
  import opened Seqs
  import Priority

  /**
    One notification record. `createdAt` is `None` when the stored
    timestamp is missing or cannot be parsed as a date.
  */
  datatype Notification = Notification(
    id: int,
    userId: string,
    kind: string,
    title: string,
    message: string,
    priority: string,
    data: map<string, string>,
    read: bool,
    readAt: Option<nat>,
    createdAt: Option<nat>)

  // ----- adding -----

  /** add_notification: appends one unread record whose id is the previous length + 1. */
  function Add(store: seq<Notification>, userId: string, kind: string, title: string, message: string,
               priority: string, data: Option<map<string, string>>, now: nat): (r: seq<Notification>)
    ensures |r| == |store| + 1 && r[..|store|] == store
    ensures r[|store|].id == |store| + 1
    ensures r[|store|].userId == userId && r[|store|].kind == kind && r[|store|].priority == priority
    ensures r[|store|].title == title && r[|store|].message == message
    ensures !r[|store|].read && r[|store|].readAt == None && r[|store|].createdAt == Some(now)
    ensures r[|store|].data == data.GetOr(map[])
  {
    store + [Notification(|store| + 1, userId, kind, title, message, priority, data.GetOr(map[]), false, None, Some(now))]
  }

  /** Every record's id is its position + 1, as in a store that only ever grew by `Add`. */
  predicate IdsArePositions(store: seq<Notification>) {
    forall i :: 0 <= i < |store| ==> store[i].id == i + 1
  }

  lemma AddKeepsIdsArePositions(store: seq<Notification>, userId: string, kind: string, title: string,
                                message: string, priority: string, data: Option<map<string, string>>, now: nat)
    requires IdsArePositions(store)
    ensures IdsArePositions(Add(store, userId, kind, title, message, priority, data, now))
  {
  }

  /** In a store that only grew by `Add`, no two records share an id. */
  lemma IdsArePositionsUnique(store: seq<Notification>)
    requires IdsArePositions(store)
    ensures forall i, j :: 0 <= i < j < |store| ==> store[i].id != store[j].id
  {
  }

  // ----- per-user views -----

  function ForUser(u: string): Notification -> bool {
    (n: Notification) => n.userId == u
  }

  function NotForUser(u: string): Notification -> bool {
    (n: Notification) => n.userId != u
  }

  function Unread(): Notification -> bool {
    (n: Notification) => !n.read
  }

  /** The sort key `(priority rank, created_at)`. */
  function SortKey(n: Notification): Key {
    Key(Priority.Rank(n.priority), CreatedKey(n.createdAt))
  }

  /** The records get_user_notifications selects before sorting. */
  function Selected(store: seq<Notification>, u: string, unreadOnly: bool): seq<Notification> {
    var mine := Keep(store, ForUser(u));
    if unreadOnly then Keep(mine, Unread()) else mine
  }

  /** get_user_notifications: the user's records (only the unread ones if asked), highest priority first, newest first within a priority. */
  function UserNotifications(store: seq<Notification>, u: string, unreadOnly: bool): (r: seq<Notification>)
    ensures SortedDesc(r, SortKey)
    ensures multiset(r) == multiset(Selected(store, u, unreadOnly))
  {
    SortDesc(Selected(store, u, unreadOnly), SortKey)
  }

  /** The view holds exactly the user's records, and with `unreadOnly` exactly the unread ones. */
  lemma UserNotificationsMembers(store: seq<Notification>, u: string, unreadOnly: bool)
    ensures forall n :: n in UserNotifications(store, u, unreadOnly) <==>
              n in store && n.userId == u && (unreadOnly ==> !n.read)
  {
    KeepIn(store, ForUser(u));
    KeepIn(Keep(store, ForUser(u)), Unread());
    SortDescIn(Selected(store, u, unreadOnly), SortKey);
  }

  /** Records with the same priority rank and timestamp keep their stored order. */
  lemma UserNotificationsStable(store: seq<Notification>, u: string, unreadOnly: bool, k: Key)
    ensures WithKey(UserNotifications(store, u, unreadOnly), SortKey, k) == WithKey(Selected(store, u, unreadOnly), SortKey, k)
  {
    SortDescStable(Selected(store, u, unreadOnly), SortKey, k);
  }

  /** get_notification_count: the length of that view. */
  function NotificationCount(store: seq<Notification>, u: string, unreadOnly: bool): (n: nat)
    ensures n == |Selected(store, u, unreadOnly)|
  {
    |UserNotifications(store, u, unreadOnly)|
  }

  /** A new record for `u` adds one to every count of `u` and changes no other user's count. */
  lemma {:induction false} CountAfterAdd(store: seq<Notification>, userId: string, kind: string, title: string,
                                         message: string, priority: string, data: Option<map<string, string>>,
                                         now: nat, u: string, unreadOnly: bool)
    ensures NotificationCount(Add(store, userId, kind, title, message, priority, data, now), u, unreadOnly)
            == NotificationCount(store, u, unreadOnly) + (if u == userId then 1 else 0)
  {
    var s' := Add(store, userId, kind, title, message, priority, data, now);
    var n := s'[|store|];
    assert s' == store + [n];
    KeepAppend(store, [n], ForUser(u));
    KeepAppend(Keep(store, ForUser(u)), Keep([n], ForUser(u)), Unread());
    assert [n][1..] == [];
  }

  // ----- marking read -----

  function HasId(id: int): Notification -> bool {
    (n: Notification) => n.id == id
  }

  function MarkedRead(n: Notification, now: nat): Notification {
    n.(read := true, readAt := Some(now))
  }

  /**
    mark_notification_read: the loop stops at the first record with the id,
    marks it read and saves; when no record has the id it returns false and
    nothing is saved.
  */
  method MarkRead(store: seq<Notification>, id: int, now: nat) returns (r: seq<Notification>, found: bool)
    ensures found <==> FirstWhere(store, HasId(id)).Some?
    ensures !found ==> r == store
    ensures found ==> var i := FirstWhere(store, HasId(id)).value;
                      r == store[i := MarkedRead(store[i], now)]
  {
    var i := 0;
    while i < |store|
      invariant 0 <= i <= |store|
      invariant forall j :: 0 <= j < i ==> store[j].id != id
    {
      if store[i].id == id {
        assert FirstWhere(store, HasId(id)) == Some(i);
        return store[i := MarkedRead(store[i], now)], true;
      }
      i := i + 1;
    }
    return store, false;
  }

  /** What mark_all_notifications_read saves: every unread record of `u` read, everything else as it was. */
  function MarkAllRead(store: seq<Notification>, u: string, now: nat): (r: seq<Notification>)
    ensures |r| == |store|
  {
    seq(|store|, i requires 0 <= i < |store| =>
      if store[i].userId == u && !store[i].read then MarkedRead(store[i], now) else store[i])
  }

  /** mark_all_notifications_read, as the loop over the records that the source runs. */
  method MarkAll(store: seq<Notification>, u: string, now: nat) returns (r: seq<Notification>)
    ensures r == MarkAllRead(store, u, now)
  {
    r := store;
    var i := 0;
    while i < |r|
      invariant 0 <= i <= |r| == |store|
      invariant forall j :: 0 <= j < i ==> r[j] == MarkAllRead(store, u, now)[j]
      invariant forall j :: i <= j < |r| ==> r[j] == store[j]
    {
      if r[i].userId == u && !r[i].read {
        r := r[i := MarkedRead(r[i], now)];
      }
      i := i + 1;
    }
  }

  lemma {:induction false} MarkAllReadOwn(store: seq<Notification>, u: string, now: nat)
    ensures Keep(Keep(MarkAllRead(store, u, now), ForUser(u)), Unread()) == []
    decreases |store|
  {
    if |store| > 0 {
      var r := MarkAllRead(store, u, now);
      assert r[1..] == MarkAllRead(store[1..], u, now);
      MarkAllReadOwn(store[1..], u, now);
    }
  }

  lemma {:induction false} MarkAllReadOthers(store: seq<Notification>, u: string, now: nat, v: string)
    requires v != u
    ensures Keep(MarkAllRead(store, u, now), ForUser(v)) == Keep(store, ForUser(v))
    decreases |store|
  {
    if |store| > 0 {
      var r := MarkAllRead(store, u, now);
      assert r[1..] == MarkAllRead(store[1..], u, now);
      MarkAllReadOthers(store[1..], u, now, v);
    }
  }

  /** After marking all read, `u` has no unread notification left and every other user's view is unchanged. */
  lemma MarkAllReadEffect(store: seq<Notification>, u: string, now: nat, v: string, unreadOnly: bool)
    ensures NotificationCount(MarkAllRead(store, u, now), u, true) == 0
    ensures v != u ==> UserNotifications(MarkAllRead(store, u, now), v, unreadOnly) == UserNotifications(store, v, unreadOnly)
  {
    MarkAllReadOwn(store, u, now);
    if v != u {
      MarkAllReadOthers(store, u, now, v);
    }
  }

  // ----- clearing and cleanup -----

  /** clear_all_notifications: the list without `u`'s records, in the stored order. */
  function ClearAll(store: seq<Notification>, u: string): (r: seq<Notification>)
    ensures forall x :: x in r <==> x in store && x.userId != u
  {
    KeepIn(store, NotForUser(u));
    Keep(store, NotForUser(u))
  }

  lemma {:induction false} KeepAfterClear(store: seq<Notification>, u: string, v: string)
    ensures Keep(ClearAll(store, u), ForUser(v)) == if v == u then [] else Keep(store, ForUser(v))
    decreases |store|
  {
    if |store| > 0 {
      KeepAfterClear(store[1..], u, v);
    }
  }

  /** After clearing, `u` sees nothing and every other user sees what they saw before. */
  lemma ClearAllEffect(store: seq<Notification>, u: string, v: string, unreadOnly: bool)
    ensures UserNotifications(ClearAll(store, u), u, unreadOnly) == []
    ensures v != u ==> UserNotifications(ClearAll(store, u), v, unreadOnly) == UserNotifications(store, v, unreadOnly)
  {
    KeepAfterClear(store, u, u);
    KeepAfterClear(store, u, v);
  }

  /** Clearing `u` removes exactly `u`'s records. */
  lemma {:induction false} ClearAllLength(store: seq<Notification>, u: string)
    ensures |ClearAll(store, u)| == |store| - Count(store, ForUser(u))
    decreases |store|
  {
    if |store| > 0 {
      ClearAllLength(store[1..], u);
    }
  }

  /**
    Clearing a user can make the next id collide with a surviving record, so
    ids are not unique: in a store numbered by position where `u` owns `c`
    records and the record at position |store| - c + 1 is not `u`'s (for a
    single record of `u`: any record but the last), the next add takes the id
    of that surviving record.
  */
  lemma ClearThenAddReusesId(store: seq<Notification>, u: string, userId: string, kind: string, title: string,
                             message: string, priority: string, data: Option<map<string, string>>, now: nat)
    requires IdsArePositions(store)
    requires 1 <= Count(store, ForUser(u)) && store[|store| - Count(store, ForUser(u))].userId != u
    ensures var s := Add(ClearAll(store, u), userId, kind, title, message, priority, data, now);
            var m := |store| - Count(store, ForUser(u)) + 1;
            s[|s| - 1].id == m && exists i :: 0 <= i < |s| - 1 && s[i].id == m && s[i].userId != u
  {
    var idx := |store| - Count(store, ForUser(u));
    var kept := ClearAll(store, u);
    ClearAllLength(store, u);
    KeepMembers(store, NotForUser(u));
    assert NotForUser(u)(store[idx]);
    var i :| 0 <= i < |kept| && kept[i] == store[idx];
    var s := Add(kept, userId, kind, title, message, priority, data, now);
    assert s[i] == kept[i];
  }

  /** cleanup_old_notifications keeps a record created after the cutoff, or one whose date cannot be read. */
  function KeptByCleanup(now: nat, daysOld: int): Notification -> bool {
    (n: Notification) => n.createdAt.None? || n.createdAt.value > now - daysOld * 24 * 60 * 60
  }

  /** cleanup_old_notifications, as the loop that builds the kept list. */
  method Cleanup(store: seq<Notification>, now: nat, daysOld: int) returns (r: seq<Notification>)
    ensures r == Keep(store, KeptByCleanup(now, daysOld))
  {
    r := [];
    var i := 0;
    while i < |store|
      invariant 0 <= i <= |store|
      invariant r == Keep(store[..i], KeptByCleanup(now, daysOld))
    {
      var n := store[i];
      assert store[..i + 1] == store[..i] + [n];
      KeepAppend(store[..i], [n], KeptByCleanup(now, daysOld));
      assert [n][1..] == [];
      match n.createdAt {
        case None =>
          r := r + [n];
        case Some(t) =>
          if t > now - daysOld * 24 * 60 * 60 {
            r := r + [n];
          }
      }
      i := i + 1;
    }
    assert store[..|store|] == store;
  }

  /** Cleanup keeps exactly the recent and the undated records, and a second cleanup with the same cutoff removes nothing more. */
  lemma CleanupKept(store: seq<Notification>, now: nat, daysOld: int)
    ensures forall n :: n in Keep(store, KeptByCleanup(now, daysOld)) <==>
              n in store && (n.createdAt.None? || n.createdAt.value > now - daysOld * 86400)
    ensures Keep(Keep(store, KeptByCleanup(now, daysOld)), KeptByCleanup(now, daysOld)) == Keep(store, KeptByCleanup(now, daysOld))
  {
    KeepMembers(store, KeptByCleanup(now, daysOld));
    var r := Keep(store, KeptByCleanup(now, daysOld));
    forall n | n in store && (n.createdAt.None? || n.createdAt.value > now - daysOld * 86400)
      ensures n in r
    {
      var i :| 0 <= i < |store| && store[i] == n;
    }
    KeepAll(r, KeptByCleanup(now, daysOld));
  }

  // ----- display helpers -----

  const BadgeOpen: string := "<span style=\"background: #ff4444; color: white; border-radius: 50%; padding: 2px 6px; font-size: 0.7rem; margin-left: 5px; font-weight: bold;\">"
  const BadgeClose: string := "</span>"

  /** The number a badge shows: the count, or `max_show` followed by "+" once the count exceeds it. */
  function BadgeLabel(count: int, maxShow: int): string {
    if count > maxShow then IntToString(maxShow) + "+" else IntToString(count)
  }

  /** get_notification_badge: no badge for a count of zero or less. */
  function Badge(count: int, maxShow: int): (r: string)
    ensures r == "" <==> count <= 0
    ensures count > 0 ==> r == BadgeOpen + BadgeLabel(count, maxShow) + BadgeClose
  {
    if count > 0 then BadgeOpen + BadgeLabel(count, maxShow) + BadgeClose else ""
  }

  /** A shown count reads back as the count itself, and a capped one as `max_show` with a "+" mark. */
  lemma BadgeLabelReadsBack(count: int, maxShow: int)
    requires count > 0
    ensures count <= maxShow ==> ParseNat(BadgeLabel(count, maxShow)) == Some(count)
    ensures count > maxShow >= 0 ==> var l := BadgeLabel(count, maxShow);
              l[|l| - 1] == '+' && ParseNat(l[..|l| - 1]) == Some(maxShow)
  {
    if count <= maxShow {
      ParseNatToString(count);
    } else if maxShow >= 0 {
      var l := BadgeLabel(count, maxShow);
      assert l[..|l| - 1] == NatToString(maxShow);
      ParseNatToString(maxShow);
    }
  }

  /** get_priority_color: red, orange, yellow, green; yellow for an unknown priority. */
  function PriorityColor(p: string): string {
    if p == "Urgent" then "\U{1F534}"
    else if p == "High" then "\U{1F7E0}"
    else if p == "Normal" then "\U{1F7E1}"
    else if p == "Low" then "\U{1F7E2}"
    else "\U{1F7E1}"
  }

  /** Two priorities get the same colour exactly when they have the same sort rank. */
  lemma PriorityColorFollowsRank(p: string, q: string)
    ensures PriorityColor(p) == PriorityColor(q) <==> Priority.Rank(p) == Priority.Rank(q)
  {
  }

  // ----- templates -----

  /** The title table of create_interaction_notification, "New Interaction" otherwise. */
  function InteractionTitle(kind: string): string {
    if kind == "like" then "New Like"
    else if kind == "comment" then "New Comment"
    else if kind == "share" then "Post Shared"
    else if kind == "mention" then "You were mentioned"
    else "New Interaction"
  }

  /** "Someone <kind>d your content", followed by ": <first 100 characters>..." when there is content. */
  function InteractionMessage(kind: string, content: string): (m: string)
    ensures content == [] ==> m == "Someone " + kind + "d your content"
    ensures content != [] ==> m == "Someone " + kind + "d your content" + ": " + Take(content, 100) + "..."
  {
    var base := "Someone " + kind + "d your content";
    if content != [] then base + ": " + Take(content, 100) + "..." else base
  }

  /** The excerpt is a prefix of the content, all of it when the content fits in 100 characters. */
  lemma InteractionExcerpt(kind: string, content: string)
    requires content != []
    ensures var m := InteractionMessage(kind, content);
            var start := |"Someone " + kind + "d your content: "|;
            |m| - start - 3 == Min(|content|, 100)
            && m[start..|m| - 3] == content[..Min(|content|, 100)]
            && (|content| <= 100 ==> m[start..|m| - 3] == content)
  {
    var m := InteractionMessage(kind, content);
    var base := "Someone " + kind + "d your content";
    assert m == (base + ": ") + Take(content, 100) + "...";
  }

  /** create_interaction_notification: a Normal "interaction" record for the recipient. */
  function InteractionNotification(store: seq<Notification>, fromUser: string, toUser: string, kind: string,
                                   content: string, now: nat): (r: seq<Notification>)
    ensures |r| == |store| + 1 && r[..|store|] == store
    ensures r[|store|].userId == toUser && r[|store|].kind == "interaction" && r[|store|].priority == "Normal"
    ensures r[|store|].title == InteractionTitle(kind) && r[|store|].message == InteractionMessage(kind, content)
    ensures r[|store|].data == map["from_user_id" := fromUser, "interaction_type" := kind]
  {
    Add(store, toUser, "interaction", InteractionTitle(kind), InteractionMessage(kind, content), "Normal",
        Some(map["from_user_id" := fromUser, "interaction_type" := kind]), now)
  }

  /** The title table of create_connection_notification, "Connection Update" otherwise. */
  function ConnectionTitle(action: string): string {
    if action == "request" then "Connection Request"
    else if action == "accepted" then "Connection Accepted"
    else if action == "declined" then "Connection Declined"
    else "Connection Update"
  }

  /** create_connection_notification: a Normal "connection" record for the recipient. */
  function ConnectionNotification(store: seq<Notification>, fromUser: string, toUser: string, action: string,
                                  now: nat): (r: seq<Notification>)
    ensures |r| == |store| + 1 && r[..|store|] == store
    ensures r[|store|].userId == toUser && r[|store|].kind == "connection" && r[|store|].priority == "Normal"
    ensures r[|store|].title == ConnectionTitle(action)
    ensures r[|store|].message == "Connection " + action + " from another delegate"
    ensures r[|store|].data == map["from_user_id" := fromUser, "action" := action]
  {
    Add(store, toUser, "connection", ConnectionTitle(action), "Connection " + action + " from another delegate",
        "Normal", Some(map["from_user_id" := fromUser, "action" := action]), now)
  }

  /** Each known interaction and action has its own title, and only unknown ones fall back to the generic title. */
  lemma TitlesDistinguishKinds(k1: string, k2: string)
    ensures InteractionTitle(k1) == "New Interaction" <==> k1 !in {"like", "comment", "share", "mention"}
    ensures ConnectionTitle(k1) == "Connection Update" <==> k1 !in {"request", "accepted", "declined"}
    ensures k1 in {"like", "comment", "share", "mention"} && InteractionTitle(k1) == InteractionTitle(k2) ==> k1 == k2
  {
  }
}
