/**
  The post engagement ledger of pages/10_Interactive_PR.py: the PR posts
  with their like, share and view counters, and the delegate interaction
  log (likes, shares, comments) that the page appends to and filters.

  Both JSON files are lists passed in and returned. An update that the
  source would abort with a KeyError (a post stored without an
  `engagement` object) is an explicit outcome.
*/
module Engagement {
  import opened Wrappers
  import opened Text
  import opened Seqs
  import Notifications

  /** A post's `engagement` object; a counter it lacks reads as 0. */
  type Counters = map<string, int>

  /** One PR post. `engagement` is `None` when the post has no such object at all. */
  datatype Post = Post(
    id: int,
    title: string,
    content: string,
    hashtags: seq<string>,
    kind: string,
    priority: string,
    image: Option<string>,
    engagement: Option<Counters>,
    createdAt: Option<nat>,
    createdBy: string)

  /** One record of the interaction log. */
  datatype Interaction = Interaction(
    id: int,
    postId: int,
    userId: string,
    userName: string,
    kind: string,
    content: Option<string>,
    mentions: seq<string>,
    createdAt: Option<nat>)

  /** `post.get('engagement', {}).get(name, 0)` */
  function Counter(e: Option<Counters>, name: string): int {
    if e.Some? && name in e.value then e.value[name] else 0
  }

  function Likes(p: Post): int { Counter(p.engagement, "likes") }
  function Shares(p: Post): int { Counter(p.engagement, "shares") }
  function Views(p: Post): int { Counter(p.engagement, "views") }

  // ----- the page header -----

  /** get_notification_badge of the page: " (n)", " (max_show+)" above the cap, nothing for zero or less. */
  function EngagementBadge(count: int, maxShow: int): (r: string)
    ensures r == "" <==> count <= 0
    ensures 0 < count <= maxShow ==> r == " (" + NatToString(count) + ")"
    ensures 0 <= maxShow < count ==> r == " (" + NatToString(maxShow) + "+)"
  {
    if count > 0 then " (" + Notifications.BadgeLabel(count, maxShow) + ")" else ""
  }

  function PostTotal(p: Post): int { Likes(p) + Shares(p) + Views(p) }

  /** The sum over the posts of likes + shares + views. */
  function Total(posts: seq<Post>): int
    decreases |posts|
  {
    if posts == [] then 0 else Total(posts[..|posts| - 1]) + PostTotal(posts[|posts| - 1])
  }

  /** get_engagement_notifications, as the accumulating loop of the source. */
  method EngagementNotifications(posts: seq<Post>) returns (total: int)
    ensures total == Total(posts)
  {
    total := 0;
    var k := 0;
    while k < |posts|
      invariant 0 <= k <= |posts|
      invariant total == Total(posts[..k])
    {
      TakeSnoc(posts, k);
      total := total + PostTotal(posts[k]);
      k := k + 1;
    }
    assert k == |posts|;
    TakeAll(posts);
  }

  lemma {:induction false} TotalAppend(a: seq<Post>, b: seq<Post>)
    ensures Total(a + b) == Total(a) + Total(b)
    decreases |b|
  {
    if b != [] {
      var b' := b[..|b| - 1];
      assert (a + b)[..|a + b| - 1] == a + b';
      assert (a + b)[|a + b| - 1] == b[|b| - 1];
      TotalAppend(a, b');
    } else {
      assert a + b == a;
    }
  }

  predicate NonNegative(p: Post) {
    Likes(p) >= 0 && Shares(p) >= 0 && Views(p) >= 0
  }

  /** With no negative counter, the header shows a badge exactly when some post has a like, share or view. */
  lemma {:induction false} TotalPositive(posts: seq<Post>)
    requires forall i :: 0 <= i < |posts| ==> NonNegative(posts[i])
    ensures Total(posts) >= 0
    ensures Total(posts) > 0 <==> exists i :: 0 <= i < |posts| && PostTotal(posts[i]) > 0
    decreases |posts|
  {
    if posts != [] {
      var init := posts[..|posts| - 1];
      TotalPositive(init);
      assert forall i :: 0 <= i < |init| ==> init[i] == posts[i];
    }
  }

  // ----- a user's interactions with a post -----

  function ByUserOn(postId: int, userId: string): Interaction -> bool {
    (x: Interaction) => x.postId == postId && x.userId == userId
  }

  function OfKind(kind: string): Interaction -> bool {
    (x: Interaction) => x.kind == kind
  }

  /** Some record of `s` has this type. */
  predicate AnyOfKind(s: seq<Interaction>, kind: string) {
    exists j :: 0 <= j < |s| && s[j].kind == kind
  }

  lemma AnyOfKindSnoc(s: seq<Interaction>, x: Interaction, kind: string)
    ensures AnyOfKind(s + [x], kind) <==> AnyOfKind(s, kind) || x.kind == kind
  {
    if AnyOfKind(s + [x], kind) && x.kind != kind {
      var j :| 0 <= j < |s| + 1 && (s + [x])[j].kind == kind;
      assert s[j].kind == kind;
    }
    if AnyOfKind(s, kind) {
      var j :| 0 <= j < |s| && s[j].kind == kind;
      assert (s + [x])[j].kind == kind;
    }
    if x.kind == kind {
      assert (s + [x])[|s|].kind == kind;
    }
  }

  /** The user's records on the post have a record of this type exactly when the whole log has one by them on it. */
  lemma AnyOfKindMine(interactions: seq<Interaction>, postId: int, userId: string, kind: string)
    ensures AnyOfKind(Keep(interactions, ByUserOn(postId, userId)), kind) <==>
            exists x :: x in interactions && x.postId == postId && x.userId == userId && x.kind == kind
  {
    var mine := Keep(interactions, ByUserOn(postId, userId));
    KeepIn(interactions, ByUserOn(postId, userId));
    if AnyOfKind(mine, kind) {
      var j :| 0 <= j < |mine| && mine[j].kind == kind;
      assert mine[j] in mine;
    }
    if exists x :: x in interactions && x.postId == postId && x.userId == userId && x.kind == kind {
      var x :| x in interactions && x.postId == postId && x.userId == userId && x.kind == kind;
      assert x in mine;
      var j :| 0 <= j < |mine| && mine[j] == x;
    }
  }

  /**
    get_user_interactions: after filtering the log to this user and post,
    the loop sets `liked` and `shared` and collects the comments.
  */
  method UserInteractions(interactions: seq<Interaction>, postId: int, userId: string)
    returns (liked: bool, shared: bool, comments: seq<Interaction>)
    ensures liked <==> exists x :: x in interactions && x.postId == postId && x.userId == userId && x.kind == "like"
    ensures shared <==> exists x :: x in interactions && x.postId == postId && x.userId == userId && x.kind == "share"
    ensures comments == Keep(Keep(interactions, ByUserOn(postId, userId)), OfKind("comment"))
  {
    var mine := Keep(interactions, ByUserOn(postId, userId));
    liked, shared, comments := false, false, [];
    var k := 0;
    while k < |mine|
      invariant 0 <= k <= |mine|
      invariant liked == AnyOfKind(mine[..k], "like")
      invariant shared == AnyOfKind(mine[..k], "share")
      invariant comments == Keep(mine[..k], OfKind("comment"))
    {
      var x := mine[k];
      if x.kind == "like" {
        liked := true;
      } else if x.kind == "share" {
        shared := true;
      } else if x.kind == "comment" {
        comments := comments + [x];
      }
      TakeSnoc(mine, k);
      AnyOfKindSnoc(mine[..k], x, "like");
      AnyOfKindSnoc(mine[..k], x, "share");
      KeepSnoc(mine[..k], x, OfKind("comment"));
      k := k + 1;
    }
    assert k == |mine|;
    TakeAll(mine);
    AnyOfKindMine(interactions, postId, userId, "like");
    AnyOfKindMine(interactions, postId, userId, "share");
  }

  // ----- counter updates -----

  /** What update_post_engagement did: no post had the id, the update raised, or the posts were saved. */
  datatype Update = NoPost | Raised | Saved(posts: seq<Post>)

  /** The posts file after an update: the saved list, or the old one. */
  function AfterUpdate(posts: seq<Post>, u: Update): seq<Post> {
    if u.Saved? then u.posts else posts
  }

  function PostHasId(id: int): Post -> bool {
    (p: Post) => p.id == id
  }

  /** The counter each tracked action moves. */
  function CounterOf(action: string): string {
    if action == "like" then "likes" else if action == "share" then "shares" else "views"
  }

  predicate Tracked(action: string) {
    action == "like" || action == "share" || action == "view"
  }

  /** A view always adds one; a like or share adds or removes one. */
  function Delta(action: string, increment: bool): int {
    if action == "view" || increment then 1 else -1
  }

  function Bumped(p: Post, action: string, increment: bool): Post
    requires p.engagement.Some?
  {
    var name := CounterOf(action);
    p.(engagement := Some(p.engagement.value[name := Counter(p.engagement, name) + Delta(action, increment)]))
  }

  /**
    The outcome of update_post_engagement: the first post with the id is
    updated and the whole list saved; an action other than like, share or
    view saves the list unchanged; a post without an `engagement` object
    makes the assignment raise.
  */
  function Engaged(posts: seq<Post>, id: int, action: string, increment: bool): Update {
    match FirstWhere(posts, PostHasId(id))
    case None => NoPost
    case Some(i) =>
      if !Tracked(action) then Saved(posts)
      else if posts[i].engagement.None? then Raised
      else Saved(posts[i := Bumped(posts[i], action, increment)])
  }

  /** update_post_engagement, as the search loop of the source that stops after the first match. */
  method UpdatePostEngagement(posts: seq<Post>, id: int, action: string, increment: bool) returns (r: Update)
    ensures r == Engaged(posts, id, action, increment)
  {
    var i := 0;
    while i < |posts|
      invariant 0 <= i <= |posts|
      invariant forall j :: 0 <= j < i ==> posts[j].id != id
    {
      if posts[i].id == id {
        assert FirstWhere(posts, PostHasId(id)) == Some(i);
        if action == "like" || action == "share" || action == "view" {
          if posts[i].engagement.None? {
            return Raised;
          }
          return Saved(posts[i := Bumped(posts[i], action, increment)]);
        }
        return Saved(posts);
      }
      i := i + 1;
    }
    return NoPost;
  }

  /** Everything about a post but its counters. */
  function Frame(p: Post): Post {
    p.(engagement := None)
  }

  /** A bump moves the named counter by the action's delta and leaves every other counter and field alone. */
  lemma BumpedCounts(p: Post, action: string, increment: bool)
    requires p.engagement.Some?
    ensures Frame(Bumped(p, action, increment)) == Frame(p)
    ensures Counter(Bumped(p, action, increment).engagement, CounterOf(action))
            == Counter(p.engagement, CounterOf(action)) + Delta(action, increment)
    ensures forall name :: name != CounterOf(action) ==>
              Counter(Bumped(p, action, increment).engagement, name) == Counter(p.engagement, name)
  {
  }

  /** Nothing is saved exactly when no post has the id; the update raises exactly when the first such post has no counters. */
  lemma EngagedFails(posts: seq<Post>, id: int, action: string, increment: bool)
    ensures Engaged(posts, id, action, increment) == NoPost <==> forall j :: 0 <= j < |posts| ==> posts[j].id != id
    ensures Engaged(posts, id, action, increment) == Raised <==>
              Tracked(action) && (exists i :: 0 <= i < |posts| && posts[i].id == id && posts[i].engagement.None?
                                    && forall j :: 0 <= j < i ==> posts[j].id != id)
  {
    match FirstWhere(posts, PostHasId(id))
    case None =>
    case Some(i) =>
      assert posts[i].id == id;
      forall k | 0 <= k < |posts| && posts[k].id == id && forall j :: 0 <= j < k ==> posts[j].id != id
        ensures k == i
      {
        FirstWhereAt(posts, PostHasId(id), k);
      }
  }

  /**
    Only the first post with the id changes, and in it only the counter the
    action names, by exactly one (a view by +1 even when `increment` is
    false, a like or share by ±1 with no floor at zero).
  */
  lemma EngagedEffect(posts: seq<Post>, id: int, action: string, increment: bool)
    requires Engaged(posts, id, action, increment).Saved?
    ensures var r := Engaged(posts, id, action, increment).posts;
            var i := FirstWhere(posts, PostHasId(id)).value;
            |r| == |posts| && posts[i].id == id
            && (forall j :: 0 <= j < |posts| && j != i ==> r[j] == posts[j])
            && Frame(r[i]) == Frame(posts[i])
            && (Tracked(action) ==>
                  Counter(r[i].engagement, CounterOf(action)) == Counter(posts[i].engagement, CounterOf(action)) + Delta(action, increment)
                  && forall name :: name != CounterOf(action) ==> Counter(r[i].engagement, name) == Counter(posts[i].engagement, name))
            && (!Tracked(action) ==> r == posts)
  {
    var i := FirstWhere(posts, PostHasId(id)).value;
    if Tracked(action) {
      BumpedCounts(posts[i], action, increment);
    }
  }

  // ----- adding and removing interactions -----

  /** The two files the page writes and the notification store it reaches through create_interaction_notification. */
  datatype Ledger = Ledger(interactions: seq<Interaction>, posts: seq<Post>, notes: seq<Notifications.Notification>)

  /** A step's new ledger, and whether it stopped with an uncaught KeyError part way. */
  datatype Outcome = Outcome(ledger: Ledger, raised: bool)

  /** The interaction log with one new record appended. */
  function Recorded(interactions: seq<Interaction>, postId: int, userId: string, userName: string, kind: string,
                    content: Option<string>, mentions: Option<seq<string>>, now: nat): seq<Interaction> {
    interactions + [Interaction(|interactions| + 1, postId, userId, userName, kind, content, mentions.GetOr([]), Some(now))]
  }

  /** The counter update that add_interaction and remove_interaction request for a like or share. */
  function CounterUpdate(posts: seq<Post>, postId: int, kind: string, increment: bool): Update {
    if kind == "like" || kind == "share" then Engaged(posts, postId, kind, increment) else NoPost
  }

  /**
    add_interaction: the log is saved with the new record first; a like or
    share then updates the post, and a KeyError there ends the step before
    the notification to "all" is created (which is skipped when the user
    is "all" themselves).
  */
  function AddInteraction(l: Ledger, postId: int, userId: string, userName: string, kind: string,
                          content: Option<string>, mentions: Option<seq<string>>, now: nat): Outcome {
    var interactions := Recorded(l.interactions, postId, userId, userName, kind, content, mentions, now);
    var update := CounterUpdate(l.posts, postId, kind, true);
    if update.Raised? then Outcome(Ledger(interactions, l.posts, l.notes), true)
    else
      var notes := if userId != "all"
        then Notifications.InteractionNotification(l.notes, userId, "all", kind, content.GetOr(""), now)
        else l.notes;
      Outcome(Ledger(interactions, AfterUpdate(l.posts, update), notes), false)
  }

  /**
    One record is appended with id = previous length + 1 and mentions
    defaulting to []; a like or share moves the post's counter by +1 through
    update_post_engagement and nothing else does; one notification is added
    unless the update raised or the user is "all".
  */
  lemma AddInteractionEffect(l: Ledger, postId: int, userId: string, userName: string, kind: string,
                             content: Option<string>, mentions: Option<seq<string>>, now: nat)
    ensures var r := AddInteraction(l, postId, userId, userName, kind, content, mentions, now);
            var n := |l.interactions|;
            |r.ledger.interactions| == n + 1 && r.ledger.interactions[..n] == l.interactions
            && r.ledger.interactions[n].id == n + 1 && r.ledger.interactions[n].mentions == mentions.GetOr([])
            && r.ledger.interactions[n].postId == postId && r.ledger.interactions[n].userId == userId
            && r.ledger.interactions[n].kind == kind
            && r.raised == CounterUpdate(l.posts, postId, kind, true).Raised?
            && r.ledger.posts == AfterUpdate(l.posts, CounterUpdate(l.posts, postId, kind, true))
            && (kind != "like" && kind != "share" ==> r.ledger.posts == l.posts && !r.raised)
            && |r.ledger.notes| == |l.notes| + (if r.raised || userId == "all" then 0 else 1)
            && r.ledger.notes[..|l.notes|] == l.notes
  {
  }

  function Matching(postId: int, userId: string, kind: string): Interaction -> bool {
    (x: Interaction) => x.postId == postId && x.userId == userId && x.kind == kind
  }

  function NotMatching(postId: int, userId: string, kind: string): Interaction -> bool {
    (x: Interaction) => !(x.postId == postId && x.userId == userId && x.kind == kind)
  }

  /**
    remove_interaction: the log without every (post, user, type) match, in
    stored order, and then one decrement of a like or share counter.
  */
  function RemoveInteraction(l: Ledger, postId: int, userId: string, kind: string): Outcome {
    var interactions := Keep(l.interactions, NotMatching(postId, userId, kind));
    var update := CounterUpdate(l.posts, postId, kind, false);
    Outcome(Ledger(interactions, AfterUpdate(l.posts, update), l.notes), update.Raised?)
  }

  /**
    Every match goes and every other record stays; the counter moves by one
    however many records matched, even none.
  */
  lemma RemoveInteractionEffect(l: Ledger, postId: int, userId: string, kind: string)
    ensures var r := RemoveInteraction(l, postId, userId, kind);
            (forall x :: x in r.ledger.interactions <==>
               x in l.interactions && !(x.postId == postId && x.userId == userId && x.kind == kind))
            && r.ledger.posts == AfterUpdate(l.posts, CounterUpdate(l.posts, postId, kind, false))
            && r.ledger.notes == l.notes
    ensures (forall x :: x in l.interactions ==> !(x.postId == postId && x.userId == userId && x.kind == kind)) ==>
              RemoveInteraction(l, postId, userId, kind).ledger.interactions == l.interactions
  {
    KeepIn(l.interactions, NotMatching(postId, userId, kind));
    if forall x :: x in l.interactions ==> !(x.postId == postId && x.userId == userId && x.kind == kind) {
      KeepAll(l.interactions, NotMatching(postId, userId, kind));
    }
  }

  /** Two posts that agree on everything and on every counter's reading. */
  ghost predicate SameCounts(p: Post, q: Post) {
    Frame(p) == Frame(q) && forall name :: Counter(p.engagement, name) == Counter(q.engagement, name)
  }

  /** Taking a like back after giving it restores every counter of every post. */
  lemma EngagedUndone(posts: seq<Post>, id: int, action: string)
    requires action == "like" || action == "share"
    requires Engaged(posts, id, action, true).Saved?
    ensures var mid := Engaged(posts, id, action, true).posts;
            Engaged(mid, id, action, false).Saved?
            && var r := Engaged(mid, id, action, false).posts;
            |r| == |posts| && forall j :: 0 <= j < |posts| ==> SameCounts(r[j], posts[j])
  {
    var mid := Engaged(posts, id, action, true).posts;
    var i := FirstWhere(posts, PostHasId(id)).value;
    EngagedEffect(posts, id, action, true);
    FirstWhereAt(mid, PostHasId(id), i);
    EngagedEffect(mid, id, action, false);
  }

  /**
    Liking a post and then taking the like back restores the log (when the
    user had not liked it before) and every counter of every post.
  */
  lemma LikeThenUnlike(l: Ledger, postId: int, userId: string, userName: string, kind: string, now: nat)
    requires kind == "like" || kind == "share"
    requires forall x :: x in l.interactions ==> !(x.postId == postId && x.userId == userId && x.kind == kind)
    requires !AddInteraction(l, postId, userId, userName, kind, None, None, now).raised
    ensures var mid := AddInteraction(l, postId, userId, userName, kind, None, None, now).ledger;
            var r := RemoveInteraction(mid, postId, userId, kind).ledger;
            r.interactions == l.interactions && |r.posts| == |l.posts|
            && forall j :: 0 <= j < |l.posts| ==> SameCounts(r.posts[j], l.posts[j])
  {
    var mid := AddInteraction(l, postId, userId, userName, kind, None, None, now).ledger;
    var added := Recorded(l.interactions, postId, userId, userName, kind, None, None, now);
    assert mid.interactions == l.interactions + [added[|l.interactions|]];
    KeepSnoc(l.interactions, added[|l.interactions|], NotMatching(postId, userId, kind));
    KeepAll(l.interactions, NotMatching(postId, userId, kind));
    if Engaged(l.posts, postId, kind, true).Saved? {
      EngagedUndone(l.posts, postId, kind);
    } else {
      EngagedFails(l.posts, postId, kind, true);
      EngagedFails(l.posts, postId, kind, false);
    }
  }

  // ----- comments and the trending order -----

  function CommentOn(postId: int): Interaction -> bool {
    (x: Interaction) => x.postId == postId && x.kind == "comment"
  }

  /** Ascending by created_at is descending by its negation. */
  function CommentOrder(x: Interaction): Key {
    Key(-CreatedKey(x.createdAt), 0)
  }

  /** get_post_comments: the post's comments, oldest first, a missing timestamp first of all. */
  function PostComments(interactions: seq<Interaction>, postId: int): (r: seq<Interaction>)
    ensures multiset(r) == multiset(Keep(interactions, CommentOn(postId)))
    ensures forall a, b :: 0 <= a < b < |r| ==> CreatedKey(r[a].createdAt) <= CreatedKey(r[b].createdAt)
  {
    SortDesc(Keep(interactions, CommentOn(postId)), CommentOrder)
  }

  /** Exactly the comment records of the post, and comments with the same timestamp keep their stored order. */
  lemma PostCommentsMembers(interactions: seq<Interaction>, postId: int, k: Key)
    ensures forall x :: x in PostComments(interactions, postId) <==>
              x in interactions && x.postId == postId && x.kind == "comment"
    ensures WithKey(PostComments(interactions, postId), CommentOrder, k)
            == WithKey(Keep(interactions, CommentOn(postId)), CommentOrder, k)
  {
    KeepIn(interactions, CommentOn(postId));
    SortDescIn(Keep(interactions, CommentOn(postId)), CommentOrder);
    SortDescStable(Keep(interactions, CommentOn(postId)), CommentOrder, k);
  }

  /** likes + 2 * shares: a share weighs two likes. */
  function Score(p: Post): int { Likes(p) + 2 * Shares(p) }

  function TrendingKey(p: Post): Key {
    Key(Score(p), CreatedKey(p.createdAt))
  }

  /** The trending order of the interactive and external pages: highest score first, newest first on a tie. */
  function Trending(posts: seq<Post>): (r: seq<Post>)
    ensures multiset(r) == multiset(posts)
    ensures forall a, b :: 0 <= a < b < |r| ==>
              Score(r[a]) >= Score(r[b]) && (Score(r[a]) == Score(r[b]) ==> CreatedKey(r[a].createdAt) >= CreatedKey(r[b].createdAt))
  {
    SortDesc(posts, TrendingKey)
  }

  /** Posts with the same score and timestamp keep their stored order, and a list already in trending order is left as it is. */
  lemma TrendingStable(posts: seq<Post>, k: Key)
    ensures WithKey(Trending(posts), TrendingKey, k) == WithKey(posts, TrendingKey, k)
    ensures SortedDesc(posts, TrendingKey) ==> Trending(posts) == posts
  {
    SortDescStable(posts, TrendingKey, k);
    if SortedDesc(posts, TrendingKey) {
      SortDescOfSorted(posts, TrendingKey);
    }
  }

  // ----- the view counts of the external page -----

  function Viewed(p: Post): Post
    requires p.engagement.Some?
  {
    p.(engagement := Some(p.engagement.value["views" := Views(p) + 1]))
  }

  predicate AllEngaged(posts: seq<Post>) {
    forall i :: 0 <= i < |posts| ==> posts[i].engagement.Some?
  }

  function ViewedAll(posts: seq<Post>): (r: seq<Post>)
    requires AllEngaged(posts)
    ensures |r| == |posts|
  {
    seq(|posts|, i requires 0 <= i < |posts| => Viewed(posts[i]))
  }

  /**
    Opening the interactive page from the external page: every post's views
    go up by one and the list is saved; a post without an `engagement`
    object raises inside the loop, the exception is swallowed and nothing
    is saved.
  */
  method ViewAll(posts: seq<Post>) returns (saved: bool, r: seq<Post>)
    ensures saved <==> AllEngaged(posts)
    ensures saved ==> r == ViewedAll(posts)
    ensures !saved ==> r == posts
  {
    var cur := posts;
    var k := 0;
    while k < |posts|
      invariant 0 <= k <= |posts| == |cur|
      invariant forall j :: 0 <= j < k ==> posts[j].engagement.Some? && cur[j] == Viewed(posts[j])
      invariant forall j :: k <= j < |posts| ==> cur[j] == posts[j]
    {
      if cur[k].engagement.None? {
        return false, posts;
      }
      cur := cur[k := Viewed(cur[k])];
      k := k + 1;
    }
    return true, cur;
  }

  lemma {:induction false} TotalViewedAll(posts: seq<Post>)
    requires AllEngaged(posts)
    ensures Total(ViewedAll(posts)) == Total(posts) + |posts|
    decreases |posts|
  {
    if posts != [] {
      var init := posts[..|posts| - 1];
      assert ViewedAll(posts)[..|posts| - 1] == ViewedAll(init);
      TotalViewedAll(init);
    }
  }

  /** Each post gains exactly one view and no like or share. */
  lemma ViewedAllEffect(posts: seq<Post>)
    requires AllEngaged(posts)
    ensures forall i :: 0 <= i < |posts| ==>
              Views(ViewedAll(posts)[i]) == Views(posts[i]) + 1 && Likes(ViewedAll(posts)[i]) == Likes(posts[i])
              && Shares(ViewedAll(posts)[i]) == Shares(posts[i]) && Frame(ViewedAll(posts)[i]) == Frame(posts[i])
    ensures Total(ViewedAll(posts)) == Total(posts) + |posts|
  {
    TotalViewedAll(posts);
  }
}
