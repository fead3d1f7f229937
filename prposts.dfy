/**
  The PR post administration of pages/Admin_PR.py: the hashtag field, the
  publishing form with its two checks, the newest-first listing that is
  sorted in place, and deleting a post by its place in that listing.

  The page keeps the loaded list in a variable that the form appends to and
  the listing sorts and pops; `Board` holds it. Saving writes the list back
  to the JSON file, which the model leaves implicit. The clock is the
  parameter `now`, the stored image path the parameter `image`.
*/
module PrPosts {
  import opened Wrappers
  import opened Text
  import opened Seqs
  import Engagement

  type Post = Engagement.Post

  // ----- the hashtag field -----

  /** A tag as the field leaves it: stripped, not empty, and without a comma. */
  predicate IsTag(t: string) {
    t != "" && Trimmed(t) && ',' !in t
  }

  /** Stripping never brings in a character. */
  lemma TrimWithin(s: string, c: char)
    ensures c in Trim(s) ==> c in s
  {
    TrimProperties(s);
    var k :| OccursAt(s, Trim(s), k);
    if c in Trim(s) {
      var i :| 0 <= i < |Trim(s)| && Trim(s)[i] == c;
      assert s[k + i] == c;
    }
  }

  /** `[tag.strip() for tag in pieces if tag.strip()]` */
  function TagsOf(pieces: seq<string>): (r: seq<string>)
    ensures forall k :: 0 <= k < |r| ==> r[k] != "" && Trimmed(r[k])
    ensures (forall k :: 0 <= k < |pieces| ==> ',' !in pieces[k]) ==> forall k :: 0 <= k < |r| ==> IsTag(r[k])
    decreases |pieces|
  {
    if |pieces| == 0 then []
    else
      var t := Trim(pieces[0]);
      TrimProperties(pieces[0]);
      TrimWithin(pieces[0], ',');
      (if t != "" then [t] else []) + TagsOf(pieces[1..])
  }

  /** The hashtags of the form: the comma-separated entries, stripped and without blanks; none for an empty field. */
  function Hashtags(input: string): (r: seq<string>)
    ensures forall k :: 0 <= k < |r| ==> IsTag(r[k])
  {
    if input == "" then [] else TagsOf(SplitOn(input, ','))
  }

  /** `",".join(tags)` */
  function Join(tags: seq<string>): string
    decreases |tags|
  {
    if |tags| == 0 then ""
    else if |tags| == 1 then tags[0]
    else tags[0] + [','] + Join(tags[1..])
  }

  lemma {:induction false} SplitJoin(tags: seq<string>)
    requires |tags| > 0 && forall k :: 0 <= k < |tags| ==> ',' !in tags[k]
    ensures SplitOn(Join(tags), ',') == tags
    decreases |tags|
  {
    if |tags| == 1 {
      SplitOnNoSep(tags[0], ',');
    } else {
      SplitJoin(tags[1..]);
      SplitOnPiece(tags[0], ',', Join(tags[1..]));
      assert tags == [tags[0]] + tags[1..];
    }
  }

  lemma {:induction false} TagsOfTags(tags: seq<string>)
    requires forall k :: 0 <= k < |tags| ==> IsTag(tags[k])
    ensures TagsOf(tags) == tags
    decreases |tags|
  {
    if |tags| > 0 {
      TrimOfTrimmed(tags[0]);
      TagsOfTags(tags[1..]);
      assert tags == [tags[0]] + tags[1..];
    }
  }

  /** Writing tags back into the field as "a,b,c" reads them back unchanged. */
  lemma HashtagsRoundTrip(tags: seq<string>)
    requires forall k :: 0 <= k < |tags| ==> IsTag(tags[k])
    ensures Hashtags(Join(tags)) == tags
  {
    if |tags| > 0 {
      SplitJoin(tags);
      TagsOfTags(tags);
      assert |Join(tags)| >= |tags[0]| > 0 by {
        assert |tags| == 1 || Join(tags) == tags[0] + [','] + Join(tags[1..]);
      }
    }
  }

  // ----- the publishing form -----

  /** The post the form builds: the next id, stripped texts, and the counters as entered. */
  function NewPost(posts: seq<Post>, title: string, content: string, hashtags: seq<string>, kind: string,
                   priority: string, image: Option<string>, views: nat, likes: nat, shares: nat, now: nat): Post
  {
    Engagement.Post(|posts| + 1, Trim(title), Trim(content), hashtags, kind, priority, image,
                    Some(map["views" := views, "likes" := likes, "shares" := shares]), Some(now), "PR Team")
  }

  datatype Submission = Saved(posts: seq<Post>) | Rejected(message: string)

  /** The form: a blank title is reported first, then a blank content; otherwise the post is appended. */
  function Submit(posts: seq<Post>, title: string, content: string, hashtags: string, kind: string,
                  priority: string, image: Option<string>, views: nat, likes: nat, shares: nat, now: nat): Submission
  {
    if Trim(title) == "" then Rejected("Please enter a post title.")
    else if Trim(content) == "" then Rejected("Please enter post content.")
    else Saved(posts + [NewPost(posts, title, content, Hashtags(hashtags), kind, priority, image, views, likes, shares, now)])
  }

  /** Nothing is saved unless both texts are non-blank, and a blank title is the message whatever the content. */
  lemma SubmitChecks(posts: seq<Post>, title: string, content: string, hashtags: string, kind: string,
                     priority: string, image: Option<string>, views: nat, likes: nat, shares: nat, now: nat)
    ensures var s := Submit(posts, title, content, hashtags, kind, priority, image, views, likes, shares, now);
            (Trim(title) == "" ==> s == Rejected("Please enter a post title."))
            && (Trim(title) != "" && Trim(content) == "" ==> s == Rejected("Please enter post content."))
            && (s.Saved? <==> Trim(title) != "" && Trim(content) != "")
            && (s.Saved? ==> |s.posts| == |posts| + 1 && s.posts[..|posts|] == posts
                             && s.posts[|posts|] == NewPost(posts, title, content, Hashtags(hashtags), kind, priority, image, views, likes, shares, now))
  {
  }

  /**
    The new post has id one more than the number of posts before it,
    non-blank stripped texts when the form let it through, and counters
    that read back as entered.
  */
  lemma NewPostSpec(posts: seq<Post>, title: string, content: string, hashtags: seq<string>, kind: string,
                    priority: string, image: Option<string>, views: nat, likes: nat, shares: nat, now: nat)
    requires Trim(title) != "" && Trim(content) != ""
    ensures var p := NewPost(posts, title, content, hashtags, kind, priority, image, views, likes, shares, now);
            p.id == |posts| + 1 && p.title != "" && Trimmed(p.title) && p.content != "" && Trimmed(p.content)
            && p.hashtags == hashtags && p.createdBy == "PR Team"
            && Engagement.Views(p) == views && Engagement.Likes(p) == likes && Engagement.Shares(p) == shares
            && Engagement.Score(p) == likes + 2 * shares
  {
    TrimProperties(title);
    TrimProperties(content);
  }

  // ----- the listing and deletion -----

  function NewestKey(p: Post): Key {
    Key(CreatedKey(p.createdAt), 0)
  }

  /** `posts.sort(key=created_at, reverse=True)`: newest first, equal timestamps in stored order. */
  function NewestFirst(posts: seq<Post>): (r: seq<Post>)
    ensures multiset(r) == multiset(posts)
    ensures SortedDesc(r, NewestKey)
  {
    SortDesc(posts, NewestKey)
  }

  /** `posts.pop(i)` */
  function RemoveAt(s: seq<Post>, i: nat): seq<Post>
    requires i < |s|
  {
    s[..i] + s[i + 1..]
  }

  /** Popping the i-th post removes that one post and keeps the others in order. */
  lemma RemoveAtSpec(s: seq<Post>, i: nat)
    requires i < |s|
    ensures var r := RemoveAt(s, i);
            |r| == |s| - 1
            && multiset(r) == multiset(s) - multiset{s[i]}
            && (forall j :: 0 <= j < i ==> r[j] == s[j])
            && (forall j :: i <= j < |r| ==> r[j] == s[j + 1])
  {
    assert s == s[..i] + [s[i]] + s[i + 1..];
  }

  /**
    Ids are not unique: once a post is popped, the next post gets the id
    `len(pr_posts) + 1` of the shorter list, which is the id of any surviving
    post that carried the old length.
  */
  lemma IdReuse(posts: seq<Post>, i: nat, j: nat, title: string, content: string, hashtags: seq<string>, kind: string,
                priority: string, image: Option<string>, views: nat, likes: nat, shares: nat, now: nat)
    requires i < |posts| && j < |posts| && j != i && posts[j].id == |posts|
    ensures var rest := RemoveAt(posts, i);
            var p := NewPost(rest, title, content, hashtags, kind, priority, image, views, likes, shares, now);
            var k := if j < i then j else j - 1;
            p.id == |posts| && k < |rest| && rest[k] == posts[j] && rest[k].id == p.id
  {
    RemoveAtSpec(posts, i);
  }

  /** Deleting from the sorted listing saves the listing without that post: still newest first, every other post kept. */
  lemma DeleteFromListing(stored: seq<Post>, i: nat)
    requires i < |stored|
    ensures var shown := NewestFirst(stored);
            var saved := RemoveAt(shown, i);
            multiset(saved) == multiset(stored) - multiset{shown[i]}
            && SortedDesc(saved, NewestKey)
  {
    var shown := NewestFirst(stored);
    RemoveAtSpec(shown, i);
    var saved := RemoveAt(shown, i);
    forall a, b | 0 <= a < b < |saved|
      ensures !Above(NewestKey(saved[b]), NewestKey(saved[a]))
    {
      var a' := if a < i then a else a + 1;
      var b' := if b < i then b else b + 1;
      assert saved[a] == shown[a'] && saved[b] == shown[b'];
    }
  }

  /** The page's list: loaded once, appended to by the form, sorted and popped by the listing. */
  class Board {
    var posts: seq<Post>

    constructor(stored: seq<Post>)
      ensures posts == stored
    {
      posts := stored;
    }

    /** The form's submit button; `message` is the error shown, "" when the post was saved. */
    method Publish(title: string, content: string, hashtags: string, kind: string, priority: string,
                   image: Option<string>, views: nat, likes: nat, shares: nat, now: nat) returns (message: string)
      modifies this
      ensures var s := Submit(old(posts), title, content, hashtags, kind, priority, image, views, likes, shares, now);
              (s.Saved? ==> posts == s.posts && message == "")
              && (s.Rejected? ==> posts == old(posts) && message == s.message)
    {
      if Trim(title) == "" {
        message := "Please enter a post title.";
      } else if Trim(content) == "" {
        message := "Please enter post content.";
      } else {
        var post := NewPost(posts, title, content, Hashtags(hashtags), kind, priority, image, views, likes, shares, now);
        posts := posts + [post];
        message := "";
      }
    }

    /** The listing: sorts the list in place, newest first. */
    method Display()
      modifies this
      ensures posts == NewestFirst(old(posts))
    {
      posts := SortDesc(posts, NewestKey);
    }

    /** The Delete button of the i-th post shown. */
    method Delete(i: nat)
      requires i < |posts|
      modifies this
      ensures posts == RemoveAt(old(posts), i)
    {
      posts := posts[..i] + posts[i + 1..];
    }
  }
}
