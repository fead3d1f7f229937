/**
  The announcement list of pages/Admin_Announcements.py and its display on
  pages/9_External_Content.py.

  The list is the content of the announcements JSON file, passed in and
  returned; the clock is the parameter `now` (whole seconds). A stored
  record may lack its `priority` (read as "Normal" for ordering) or its
  `created_at` (read as "" for ordering and as 1970-01-01 for the weekly
  counter).
*/
module Announcements {
  import opened Wrappers
  import opened Text
  import opened Seqs
  import Priority
  import RelativeTime

  datatype Announcement = Announcement(
    id: int,
    title: string,
    content: string,
    priority: Option<string>,
    createdAt: Option<nat>,
    createdBy: string)

  function HasId(id: int): Announcement -> bool {
    (a: Announcement) => a.id == id
  }

  function OtherId(id: int): Announcement -> bool {
    (a: Announcement) => a.id != id
  }

  /** `add_announcement`: the next id is one more than the number of records. */
  function Add(list: seq<Announcement>, title: string, content: string, priority: string, now: nat): (r: seq<Announcement>)
    ensures |r| == |list| + 1 && r[..|list|] == list
    ensures r[|list|] == Announcement(|list| + 1, title, content, Some(priority), Some(now), "Admin")
  {
    list + [Announcement(|list| + 1, title, content, Some(priority), Some(now), "Admin")]
  }

  /** `add_announcement(title, content)` with the priority left out. */
  const DefaultPriority: string := "Normal"

  /** `delete_announcement`: every record with the id goes, the rest keep their order. */
  function Delete(list: seq<Announcement>, id: int): (r: seq<Announcement>)
    ensures |r| == |list| - Count(list, HasId(id))
  {
    var r := Keep(list, OtherId(id));
    KeepPartition(list, HasId(id), OtherId(id));
    r
  }

  /** Delete removes exactly the records with the id, and deletes each part of a list separately (so the order of the rest is kept). */
  lemma DeleteSpec(a: seq<Announcement>, b: seq<Announcement>, id: int)
    ensures forall x :: x in Delete(a, id) <==> x in a && x.id != id
    ensures Delete(a + b, id) == Delete(a, id) + Delete(b, id)
    ensures (forall i :: 0 <= i < |a| ==> a[i].id != id) ==> Delete(a, id) == a
  {
    KeepSplit(a, b, OtherId(id));
  }

  /** Adding and then deleting the new id gives back the list, as long as no older record carries that id. */
  lemma AddThenDelete(list: seq<Announcement>, title: string, content: string, priority: string, now: nat)
    requires forall i :: 0 <= i < |list| ==> list[i].id != |list| + 1
    ensures Delete(Add(list, title, content, priority, now), |list| + 1) == list
  {
    var x := Add(list, title, content, priority, now)[|list|];
    DeleteSpec(list, [x], |list| + 1);
    assert Delete([x], |list| + 1) == [];
  }

  /** The ids 1, 2, …, n that a list built by Add alone carries. */
  predicate Numbered(list: seq<Announcement>) {
    forall i :: 0 <= i < |list| ==> list[i].id == i + 1
  }

  /**
    Ids are not unique. Deleting any record but the last of a numbered list
    and then adding one gives the new record the id of the old last record,
    and deleting that id afterwards removes both.
  */
  lemma {:induction false} IdReuse(list: seq<Announcement>, k: int, title: string, content: string, priority: string, now: nat)
    requires Numbered(list) && 1 <= k < |list|
    ensures var after := Add(Delete(list, k), title, content, priority, now);
            var n := |list|;
            after[|after| - 1].id == n
            && Count(after, HasId(n)) == 2
            && |Delete(after, n)| == n - 2
  {
    var n := |list|;
    var rest := Delete(list, k);
    NumberedCount(list, k);
    NumberedCount(list, n);
    DeleteOtherCount(list, k, n);
    CountSnoc(rest, Add(rest, title, content, priority, now)[n - 1], HasId(n));
  }

  /** In a numbered list each id 1..n occurs once. */
  lemma {:induction false} NumberedCount(list: seq<Announcement>, j: int)
    requires Numbered(list) && 1 <= j <= |list|
    ensures Count(list, HasId(j)) == 1
    decreases |list|
  {
    var n := |list|;
    var front := list[..n - 1];
    assert list == front + [list[n - 1]];
    CountSnoc(front, list[n - 1], HasId(j));
    if j == n {
      KeepNone(front, HasId(j));
    } else {
      NumberedCount(front, j);
    }
  }

  /** Deleting one id leaves the records of another id as they were. */
  lemma {:induction false} DeleteOtherCount(list: seq<Announcement>, k: int, n: int)
    requires k != n
    ensures Count(Delete(list, k), HasId(n)) == Count(list, HasId(n))
    decreases |list|
  {
    if |list| > 0 {
      DeleteOtherCount(list[1..], k, n);
    }
  }

  // ----- the display order -----

  /** `x.get("priority", "Normal")` */
  function PriorityOf(a: Announcement): string {
    a.priority.GetOr(DefaultPriority)
  }

  function DisplayKey(a: Announcement): Key {
    Key(Priority.Rank(PriorityOf(a)), CreatedKey(a.createdAt))
  }

  /** The listing order of the admin and external pages: highest priority first, newest first within a priority. */
  function DisplayOrder(list: seq<Announcement>): (r: seq<Announcement>)
    ensures multiset(r) == multiset(list)
    ensures forall i, j :: 0 <= i < j < |r| ==>
              Priority.Rank(PriorityOf(r[i])) >= Priority.Rank(PriorityOf(r[j]))
              && (Priority.Rank(PriorityOf(r[i])) == Priority.Rank(PriorityOf(r[j])) ==> CreatedKey(r[i].createdAt) >= CreatedKey(r[j].createdAt))
  {
    SortDesc(list, DisplayKey)
  }

  /** Urgent announcements come before all others, a record without a priority sits with the Normal ones, and equal keys keep their stored order. */
  lemma DisplayOrderSpec(list: seq<Announcement>, k: Key)
    ensures var r := DisplayOrder(list);
            forall i, j :: 0 <= i < |r| && 0 <= j < |r| && r[j].priority == Some("Urgent") && r[i].priority != Some("Urgent") ==> j < i
    ensures forall a: Announcement :: a.priority.None? ==> Priority.Rank(PriorityOf(a)) == Priority.Rank("Normal")
    ensures WithKey(DisplayOrder(list), DisplayKey, k) == WithKey(list, DisplayKey, k)
  {
    SortDescStable(list, DisplayKey, k);
  }

  // ----- the posting form -----

  datatype Submission = Saved(list: seq<Announcement>) | Rejected(message: string)

  /** The form: both texts must be non-blank, and they are stored stripped. */
  function Submit(list: seq<Announcement>, title: string, content: string, priority: string, now: nat): Submission {
    if Trim(title) != "" && Trim(content) != "" then Saved(Add(list, Trim(title), Trim(content), priority, now))
    else Rejected("Please fill in both title and content")
  }

  /** A submission is saved exactly when neither text is blank, and the saved record holds non-blank stripped texts. */
  lemma SubmitSpec(list: seq<Announcement>, title: string, content: string, priority: string, now: nat)
    ensures var s := Submit(list, title, content, priority, now);
            (s.Saved? <==> (exists i :: 0 <= i < |title| && !IsSpace(title[i])) && (exists i :: 0 <= i < |content| && !IsSpace(content[i])))
            && (s.Saved? ==> |s.list| == |list| + 1 && s.list[..|list|] == list
                             && (var a := s.list[|list|];
                                 a.title != "" && Trimmed(a.title) && a.content != "" && Trimmed(a.content)))
            && (s.Rejected? ==> s.message == "Please fill in both title and content")
  {
    TrimEmptyIff(title);
    TrimEmptyIff(content);
    TrimProperties(title);
    TrimProperties(content);
  }

  // ----- the counters -----

  function HasPriority(level: string): Announcement -> bool {
    (a: Announcement) => a.priority == Some(level)
  }

  /** The "Urgent" counter. */
  function UrgentCount(list: seq<Announcement>): nat {
    Count(list, HasPriority("Urgent"))
  }

  /** The "High Priority" counter. */
  function HighCount(list: seq<Announcement>): nat {
    Count(list, HasPriority("High"))
  }

  function RankIs(n: int): Announcement -> bool {
    (a: Announcement) => Priority.Rank(PriorityOf(a)) == n
  }

  /**
    The counters count the records ranked 4 and 3 in the display, no more
    and no fewer, and together they count at most every record.
  */
  lemma CountersSpec(list: seq<Announcement>)
    ensures UrgentCount(list) == Count(list, RankIs(4))
    ensures HighCount(list) == Count(list, RankIs(3))
    ensures UrgentCount(list) + HighCount(list) <= |list|
  {
    KeepSame(list, HasPriority("Urgent"), RankIs(4));
    KeepSame(list, HasPriority("High"), RankIs(3));
    DisjointCounts(list, HasPriority("Urgent"), HasPriority("High"));
  }

  /** `created_at` with the counter's default of 1970-01-01. */
  function CreatedOrEpoch(a: Announcement): nat {
    a.createdAt.GetOr(0)
  }

  function ThisWeek(now: int): Announcement -> bool {
    (a: Announcement) => RelativeTime.WithinWeek(now - CreatedOrEpoch(a))
  }

  /** The "This Week" counter. */
  function RecentCount(list: seq<Announcement>, now: int): nat {
    Count(list, ThisWeek(now))
  }

  /** A record counts as this week's exactly when it was created less than eight days before `now`. */
  lemma RecentCountSpec(list: seq<Announcement>, now: int)
    ensures RecentCount(list, now) == Count(list, (a: Announcement) => now - CreatedOrEpoch(a) < 8 * RelativeTime.Day)
  {
    forall i | 0 <= i < |list|
      ensures ThisWeek(now)(list[i]) == (now - CreatedOrEpoch(list[i]) < 8 * RelativeTime.Day)
    {
      RelativeTime.WithinWeekIff(now - CreatedOrEpoch(list[i]));
    }
    KeepSame(list, ThisWeek(now), (a: Announcement) => now - CreatedOrEpoch(a) < 8 * RelativeTime.Day);
  }
}
