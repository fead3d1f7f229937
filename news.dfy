/**
  The news list of pages/Admin_News.py and its display on
  pages/9_External_Content.py: adding and deleting items, the newest-first
  listing, the posting form, and the statistics panel (items with images,
  this week's items, and the per-category tally with its top category).

  The list is the content of the news JSON file, passed in and returned;
  the clock is the parameter `now` (whole seconds). A stored item may lack
  its `category` (read as "General") or its `created_at`.
*/
module News {
  import opened Wrappers
  import opened Text
  import opened Seqs
  import RelativeTime

  datatype NewsItem = NewsItem(
    id: int,
    title: string,
    content: string,
    image: Option<string>,
    category: Option<string>,
    createdAt: Option<nat>,
    createdBy: string)

  /** `add_news(title, content)` with the category left out. */
  const DefaultCategory: string := "General"

  /** `add_news`: the next id is one more than the number of items. */
  function Add(list: seq<NewsItem>, title: string, content: string, image: Option<string>, category: string, now: nat): (r: seq<NewsItem>)
    ensures |r| == |list| + 1 && r[..|list|] == list
    ensures r[|list|] == NewsItem(|list| + 1, title, content, image, Some(category), Some(now), "Admin")
  {
    list + [NewsItem(|list| + 1, title, content, image, Some(category), Some(now), "Admin")]
  }

  function HasId(id: int): NewsItem -> bool {
    (n: NewsItem) => n.id == id
  }

  function OtherId(id: int): NewsItem -> bool {
    (n: NewsItem) => n.id != id
  }

  /** `delete_news`: every item with the id goes, the rest keep their order. */
  function Delete(list: seq<NewsItem>, id: int): (r: seq<NewsItem>)
    ensures |r| == |list| - Count(list, HasId(id))
  {
    var r := Keep(list, OtherId(id));
    KeepPartition(list, HasId(id), OtherId(id));
    r
  }

  /** Delete removes exactly the items with the id, and deletes each part of a list separately (so the order of the rest is kept). */
  lemma DeleteSpec(a: seq<NewsItem>, b: seq<NewsItem>, id: int)
    ensures forall x :: x in Delete(a, id) <==> x in a && x.id != id
    ensures Delete(a + b, id) == Delete(a, id) + Delete(b, id)
    ensures (forall i :: 0 <= i < |a| ==> a[i].id != id) ==> Delete(a, id) == a
  {
    KeepSplit(a, b, OtherId(id));
  }

  /** Adding and then deleting the new id gives back the list, as long as no older item carries that id. */
  lemma AddThenDelete(list: seq<NewsItem>, title: string, content: string, image: Option<string>, category: string, now: nat)
    requires forall i :: 0 <= i < |list| ==> list[i].id != |list| + 1
    ensures Delete(Add(list, title, content, image, category, now), |list| + 1) == list
  {
    var x := Add(list, title, content, image, category, now)[|list|];
    DeleteSpec(list, [x], |list| + 1);
    assert Delete([x], |list| + 1) == [];
  }

  // ----- the listings -----

  function NewestKey(n: NewsItem): Key {
    Key(CreatedKey(n.createdAt), 0)
  }

  /** The admin listing: newest first, items with the same timestamp in stored order. */
  function Newest(list: seq<NewsItem>): (r: seq<NewsItem>)
    ensures multiset(r) == multiset(list)
    ensures forall i, j :: 0 <= i < j < |r| ==> CreatedKey(r[i].createdAt) >= CreatedKey(r[j].createdAt)
  {
    SortDesc(list, NewestKey)
  }

  /** The external page's news section: the five newest. */
  function Latest(list: seq<NewsItem>): seq<NewsItem> {
    Take(Newest(list), 5)
  }

  /** At most five items are shown, all of them stored ones, newest first, and an item left out is no newer than any shown. */
  lemma LatestSpec(list: seq<NewsItem>)
    ensures var r := Latest(list);
            |r| == Min(|list|, 5)
            && (forall x :: x in r ==> x in list)
            && (forall i, j :: 0 <= i < j < |r| ==> CreatedKey(r[i].createdAt) >= CreatedKey(r[j].createdAt))
            && forall x, y :: x in list && x !in r && y in r ==> CreatedKey(x.createdAt) <= CreatedKey(y.createdAt)
  {
    var s := Newest(list);
    TakeOfSorted(s, NewestKey, 5);
    SortDescIn(list, NewestKey);
  }

  // ----- the posting form -----

  datatype Submission = Saved(list: seq<NewsItem>) | Rejected(message: string)

  /** The form: both texts must be non-blank, and they are stored stripped. */
  function Submit(list: seq<NewsItem>, title: string, content: string, image: Option<string>, category: string, now: nat): Submission {
    if Trim(title) != "" && Trim(content) != "" then Saved(Add(list, Trim(title), Trim(content), image, category, now))
    else Rejected("Please fill in both title and content")
  }

  /** A submission is saved exactly when neither text is blank, and the saved item holds non-blank stripped texts. */
  lemma SubmitSpec(list: seq<NewsItem>, title: string, content: string, image: Option<string>, category: string, now: nat)
    ensures var s := Submit(list, title, content, image, category, now);
            (s.Saved? <==> (exists i :: 0 <= i < |title| && !IsSpace(title[i])) && (exists i :: 0 <= i < |content| && !IsSpace(content[i])))
            && (s.Saved? ==> |s.list| == |list| + 1 && s.list[..|list|] == list
                             && (var n := s.list[|list|];
                                 n.title != "" && Trimmed(n.title) && n.content != "" && Trimmed(n.content)
                                 && n.category == Some(category) && n.image == image))
            && (s.Rejected? ==> s.message == "Please fill in both title and content")
  {
    TrimEmptyIff(title);
    TrimEmptyIff(content);
    TrimProperties(title);
    TrimProperties(content);
  }

  // ----- the statistics panel -----

  /** `n.get("image")` is truthy: a path that is present and not empty. */
  predicate HasImage(n: NewsItem) {
    n.image.Some? && n.image.value != ""
  }

  /** The "With Images" counter. */
  function WithImages(list: seq<NewsItem>): nat {
    Count(list, HasImage)
  }

  /** Posting adds one to the image counter exactly when an image path came with it. */
  lemma WithImagesAdd(list: seq<NewsItem>, title: string, content: string, image: Option<string>, category: string, now: nat)
    ensures WithImages(Add(list, title, content, image, category, now))
            == WithImages(list) + if image.Some? && image.value != "" then 1 else 0
  {
    CountSnoc(list, Add(list, title, content, image, category, now)[|list|], HasImage);
  }

  /** `created_at` with the counter's default of 1970-01-01. */
  function CreatedOrEpoch(n: NewsItem): nat {
    n.createdAt.GetOr(0)
  }

  function ThisWeek(now: int): NewsItem -> bool {
    (n: NewsItem) => RelativeTime.WithinWeek(now - CreatedOrEpoch(n))
  }

  /** The "This Week" counter. */
  function RecentCount(list: seq<NewsItem>, now: int): nat {
    Count(list, ThisWeek(now))
  }

  /** An item counts as this week's exactly when it was created less than eight days before `now`. */
  lemma RecentCountSpec(list: seq<NewsItem>, now: int)
    ensures RecentCount(list, now) == Count(list, (n: NewsItem) => now - CreatedOrEpoch(n) < 8 * RelativeTime.Day)
  {
    forall i | 0 <= i < |list|
      ensures ThisWeek(now)(list[i]) == (now - CreatedOrEpoch(list[i]) < 8 * RelativeTime.Day)
    {
      RelativeTime.WithinWeekIff(now - CreatedOrEpoch(list[i]));
    }
    KeepSame(list, ThisWeek(now), (n: NewsItem) => now - CreatedOrEpoch(n) < 8 * RelativeTime.Day);
  }

  /** `news.get("category", "General")` */
  function CategoryOf(n: NewsItem): string {
    n.category.GetOr(DefaultCategory)
  }

  function InCategory(c: string): NewsItem -> bool {
    (n: NewsItem) => CategoryOf(n) == c
  }

  /** How many items a category has, counted from the last item back. */
  function Tally(list: seq<NewsItem>, c: string): nat
    decreases |list|
  {
    if |list| == 0 then 0
    else Tally(list[..|list| - 1], c) + if CategoryOf(list[|list| - 1]) == c then 1 else 0
  }

  /** The tally agrees with the comprehension `len([n for n in list if category(n) == c])`. */
  lemma {:induction false} TallyIsCount(list: seq<NewsItem>, c: string)
    ensures Tally(list, c) == Count(list, InCategory(c))
    decreases |list|
  {
    if |list| > 0 {
      var n := |list|;
      TallyIsCount(list[..n - 1], c);
      assert list == list[..n - 1] + [list[n - 1]];
      CountSnoc(list[..n - 1], list[n - 1], InCategory(c));
    }
  }

  /** The tally's keys in the order a dict keeps them: each category where it first occurs. */
  function CategoryOrder(list: seq<NewsItem>): seq<string> {
    Keys(Dedupe(list, CategoryOf), CategoryOf)
  }

  /** A count looked up with 0 for a missing key. */
  function At(counts: map<string, nat>, c: string): nat {
    if c in counts then counts[c] else 0
  }

  /** The sum of the counts of the listed keys. */
  function Total(order: seq<string>, counts: map<string, nat>): nat
    decreases |order|
  {
    if |order| == 0 then 0
    else Total(order[..|order| - 1], counts) + At(counts, order[|order| - 1])
  }

  /** Changing the count of an unlisted key leaves the sum alone. */
  lemma {:induction false} TotalFresh(order: seq<string>, counts: map<string, nat>, c: string, v: nat)
    requires c !in order
    ensures Total(order, counts[c := v]) == Total(order, counts)
    decreases |order|
  {
    if |order| > 0 {
      TotalFresh(order[..|order| - 1], counts, c, v);
    }
  }

  /** One more for a key listed once adds one to the sum. */
  lemma {:induction false} TotalBump(order: seq<string>, counts: map<string, nat>, c: string)
    requires c in order && c in counts
    requires forall i, j :: 0 <= i < j < |order| ==> order[i] != order[j]
    ensures Total(order, counts[c := counts[c] + 1]) == Total(order, counts) + 1
    decreases |order|
  {
    var n := |order|;
    var front := order[..n - 1];
    if order[n - 1] == c {
      assert c !in front;
      TotalFresh(front, counts, c, counts[c] + 1);
    } else {
      assert c in front;
      TotalBump(front, counts, c);
    }
  }

  /** `max(categories.items(), key=lambda x: x[1])`: the first key with the largest count. */
  function FirstMax(order: seq<string>, counts: map<string, nat>): (k: nat)
    requires |order| > 0
    ensures k < |order|
    ensures forall j :: 0 <= j < |order| ==> At(counts, order[j]) <= At(counts, order[k])
    ensures forall j :: 0 <= j < k ==> At(counts, order[j]) < At(counts, order[k])
    decreases |order|
  {
    if |order| == 1 then 0
    else
      var k := FirstMax(order[..|order| - 1], counts);
      if At(counts, order[|order| - 1]) > At(counts, order[k]) then |order| - 1 else k
  }

  /** What the tally holds once it has seen the items of `seen`. */
  ghost predicate Tallied(seen: seq<NewsItem>, order: seq<string>, counts: map<string, nat>) {
    && order == CategoryOrder(seen)
    && (forall c :: c in counts <==> c in order)
    && (forall c :: c in counts ==> counts[c] == Tally(seen, c) && counts[c] > 0)
    && Total(order, counts) == |seen|
  }

  /** `categories[cat] = categories.get(cat, 0) + 1`: a dict keeps a new key at the end of its order. */
  function NextOrder(order: seq<string>, counts: map<string, nat>, c: string): seq<string> {
    if c in counts then order else order + [c]
  }

  function NextCounts(counts: map<string, nat>, c: string): map<string, nat> {
    counts[c := At(counts, c) + 1]
  }

  /** The dict after counting the items of `s` one by one. */
  function CountsOf(s: seq<NewsItem>): map<string, nat>
    decreases |s|
  {
    if |s| == 0 then map[] else NextCounts(CountsOf(s[..|s| - 1]), CategoryOf(s[|s| - 1]))
  }

  /** The dict built by counting holds, for each category in first-seen order, how many items carry it. */
  lemma {:induction false} TalliedOf(s: seq<NewsItem>)
    ensures Tallied(s, CategoryOrder(s), CountsOf(s))
    decreases |s|
  {
    if |s| == 0 {
      assert CategoryOrder(s) == [];
    } else {
      var n := |s|;
      var front, x := s[..n - 1], s[n - 1];
      assert front + [x] == s;
      TalliedOf(front);
      TallyStep(front, x, CategoryOrder(front), CountsOf(front));
      StepOrder(front, x, CategoryOrder(front), CountsOf(front));
      assert CountsOf(s) == NextCounts(CountsOf(front), CategoryOf(x));
      assert CategoryOrder(s) == NextOrder(CategoryOrder(front), CountsOf(front), CategoryOf(x));
    }
  }

  /** Counting one more item keeps the tally's meaning. */
  lemma TallyStep(seen: seq<NewsItem>, x: NewsItem, order: seq<string>, counts: map<string, nat>)
    requires Tallied(seen, order, counts)
    ensures Tallied(seen + [x], NextOrder(order, counts, CategoryOf(x)), NextCounts(counts, CategoryOf(x)))
  {
    StepOrder(seen, x, order, counts);
    StepKeys(seen, x, order, counts);
    StepCounts(seen, x, order, counts);
    StepTotal(seen, x, order, counts);
  }

  lemma StepOrder(seen: seq<NewsItem>, x: NewsItem, order: seq<string>, counts: map<string, nat>)
    requires Tallied(seen, order, counts)
    ensures NextOrder(order, counts, CategoryOf(x)) == CategoryOrder(seen + [x])
  {
    CategoryOrderKeys(seen);
    OrderStep(seen, x);
  }

  lemma StepKeys(seen: seq<NewsItem>, x: NewsItem, order: seq<string>, counts: map<string, nat>)
    requires Tallied(seen, order, counts)
    ensures var c := CategoryOf(x);
            forall d :: d in NextCounts(counts, c) <==> d in NextOrder(order, counts, c)
  {
  }

  lemma StepCounts(seen: seq<NewsItem>, x: NewsItem, order: seq<string>, counts: map<string, nat>)
    requires Tallied(seen, order, counts)
    ensures var c, m := CategoryOf(x), NextCounts(counts, CategoryOf(x));
            forall d :: d in m ==> m[d] == Tally(seen + [x], d) && m[d] > 0
  {
    var c := CategoryOf(x);
    CategoryOrderKeys(seen);
    CountsStep(seen, x, counts);
    if c !in counts {
      NoneSeen(seen, c);
    }
  }

  lemma StepTotal(seen: seq<NewsItem>, x: NewsItem, order: seq<string>, counts: map<string, nat>)
    requires Tallied(seen, order, counts)
    ensures var c := CategoryOf(x);
            Total(NextOrder(order, counts, c), NextCounts(counts, c)) == |seen| + 1
  {
    CategoryOrderKeys(seen);
    TotalStep(order, counts, CategoryOf(x));
  }

  /** The first-seen order grows by a category exactly when it is new. */
  lemma OrderStep(seen: seq<NewsItem>, x: NewsItem)
    ensures CategoryOrder(seen + [x])
            == CategoryOrder(seen) + if CategoryOf(x) in Keys(seen, CategoryOf) then [] else [CategoryOf(x)]
  {
    DedupeFromSnoc(seen, x, CategoryOf, {});
    var d := Dedupe(seen, CategoryOf);
    if CategoryOf(x) !in Keys(seen, CategoryOf) {
      assert Keys(d + [x], CategoryOf) == Keys(d, CategoryOf) + [CategoryOf(x)];
    }
  }

  /** The first-seen order lists every category of the items once. */
  lemma CategoryOrderKeys(seen: seq<NewsItem>)
    ensures forall c :: c in CategoryOrder(seen) <==> c in Keys(seen, CategoryOf)
    ensures var o := CategoryOrder(seen); forall i, j :: 0 <= i < j < |o| ==> o[i] != o[j]
  {
    DedupeKeys(seen, CategoryOf);
  }

  /** A category no item carries has a tally of 0. */
  lemma {:induction false} NoneSeen(seen: seq<NewsItem>, c: string)
    requires c !in Keys(seen, CategoryOf)
    ensures Tally(seen, c) == 0
    decreases |seen|
  {
    if |seen| > 0 {
      var n := |seen|;
      assert Keys(seen, CategoryOf)[n - 1] == CategoryOf(seen[n - 1]);
      assert Keys(seen[..n - 1], CategoryOf) == Keys(seen, CategoryOf)[..n - 1];
      NoneSeen(seen[..n - 1], c);
    }
  }

  /** Counting one more item changes only the tally of its category. */
  lemma CountsStep(seen: seq<NewsItem>, x: NewsItem, counts: map<string, nat>)
    requires forall c :: c in counts ==> counts[c] == Tally(seen, c)
    ensures var c := CategoryOf(x);
            forall d :: d in counts ==> Tally(seen + [x], d) == counts[d] + if d == c then 1 else 0
    ensures Tally(seen + [x], CategoryOf(x)) == Tally(seen, CategoryOf(x)) + 1
  {
    assert (seen + [x])[..|seen|] == seen;
  }

  /** One more for a key: the sum grows by one whether the key was listed or is appended. */
  lemma TotalStep(order: seq<string>, counts: map<string, nat>, c: string)
    requires forall d :: d in counts <==> d in order
    requires forall i, j :: 0 <= i < j < |order| ==> order[i] != order[j]
    ensures Total(NextOrder(order, counts, c), NextCounts(counts, c)) == Total(order, counts) + 1
  {
    if c in counts {
      TotalBump(order, counts, c);
    } else {
      TotalSnoc(order, counts, c);
    }
  }

  /** Appending a new key with count 1 adds one to the sum. */
  lemma TotalSnoc(order: seq<string>, counts: map<string, nat>, c: string)
    requires c !in order
    ensures Total(order + [c], counts[c := 1]) == Total(order, counts) + 1
  {
    TotalFresh(order, counts, c, 1);
    assert (order + [c])[..|order|] == order;
  }

  /** The top category: the first of those with the largest count, "None" when there are none. */
  lemma TopOfTallied(news: seq<NewsItem>, order: seq<string>, counts: map<string, nat>)
    requires Tallied(news, order, counts) && |news| > 0
    ensures |order| > 0
    ensures var k := FirstMax(order, counts);
            (forall j :: 0 <= j < |order| ==> Tally(news, order[j]) <= Tally(news, order[k]))
            && (forall j :: 0 <= j < k ==> Tally(news, order[j]) < Tally(news, order[k]))
  {
    DedupeKeys(news, CategoryOf);
    assert CategoryOf(news[0]) in Keys(news, CategoryOf);
    forall j | 0 <= j < |order|
      ensures At(counts, order[j]) == Tally(news, order[j])
    {
      assert order[j] in order;
    }
  }

  /**
    The category panel: the per-category tally built up item by item in
    first-seen order, and the top category ("None" for an empty list).
    The counts add up to the number of items; the top category has the
    largest count, and every category seen before it has a smaller one.
  */
  method CategoryStatistics(news: seq<NewsItem>) returns (order: seq<string>, counts: map<string, nat>, top: string)
    ensures order == CategoryOrder(news)
    ensures forall c :: c in counts <==> c in order
    ensures forall c :: c in counts ==> counts[c] == Tally(news, c) && counts[c] > 0
    ensures Total(order, counts) == |news|
    ensures |news| == 0 ==> top == "None"
    ensures |news| > 0 ==>
              (exists k :: 0 <= k < |order| && order[k] == top
                 && (forall j :: 0 <= j < |order| ==> Tally(news, order[j]) <= Tally(news, top))
                 && (forall j :: 0 <= j < k ==> Tally(news, order[j]) < Tally(news, top)))
  {
    order, counts := CountCategories(news);
    TalliedOf(news);
    if |order| == 0 {
      top := "None";
    } else {
      var k := FirstMax(order, counts);
      top := order[k];
    }
    TopSpec(news, order, counts, top);
  }

  /** The counting loop of the panel: one category at a time, a new one appended to the dict's order. */
  method CountCategories(news: seq<NewsItem>) returns (order: seq<string>, counts: map<string, nat>)
    ensures order == CategoryOrder(news) && counts == CountsOf(news)
  {
    order, counts := [], map[];
    var i := 0;
    assert CategoryOrder(news[..0]) == [];
    while i < |news|
      invariant 0 <= i <= |news|
      invariant order == CategoryOrder(news[..i]) && counts == CountsOf(news[..i])
    {
      var c := CategoryOf(news[i]);
      CountStepAt(news, i);
      if c !in counts {
        order := order + [c];
      }
      counts := counts[c := At(counts, c) + 1];
      i := i + 1;
    }
    TakeAll(news);
  }

  /** The loop's step on the items read so far: the dict's order and counts after one more item. */
  lemma CountStepAt(news: seq<NewsItem>, i: nat)
    requires i < |news|
    ensures var c := CategoryOf(news[i]);
            CategoryOrder(news[..i + 1]) == NextOrder(CategoryOrder(news[..i]), CountsOf(news[..i]), c)
            && CountsOf(news[..i + 1]) == NextCounts(CountsOf(news[..i]), c)
  {
    TalliedOf(news[..i]);
    StepOrder(news[..i], news[i], CategoryOrder(news[..i]), CountsOf(news[..i]));
    TakeSnoc(news, i);
    assert news[..i + 1][..i] == news[..i];
  }

  /** What the panel shows as the top category, given the finished tally. */
  lemma TopSpec(news: seq<NewsItem>, order: seq<string>, counts: map<string, nat>, top: string)
    requires Tallied(news, order, counts)
    requires top == if |order| == 0 then "None" else order[FirstMax(order, counts)]
    ensures |news| == 0 ==> top == "None"
    ensures |news| > 0 ==>
              (exists k :: 0 <= k < |order| && order[k] == top
                 && (forall j :: 0 <= j < |order| ==> Tally(news, order[j]) <= Tally(news, top))
                 && (forall j :: 0 <= j < k ==> Tally(news, order[j]) < Tally(news, top)))
  {
    if |news| == 0 {
      assert CategoryOrder(news) == [];
    } else {
      TopOfTallied(news, order, counts);
      var k := FirstMax(order, counts);
      assert order[k] == top;
    }
  }
}
