/** The in-memory scheduled-post store: one process-wide list of posts that
    the schedule endpoint appends to, the list endpoint returns and the
    delete endpoint filters by id. */
module ScheduledPosts {
  import opened JsValue

  /** A post as the caller sent it: its `id` property (any value, or
      Missing) and the rest of its properties, kept verbatim. */
  datatype Post = Post(id: Val, fields: seq<(string, Val)>)

  /** `post.id === id` for the string `id` taken from the request path. */
  predicate Matches(p: Post, id: string)
    ensures Matches(p, id) <==> p.id == Str(id)
  {
    StrictEquals(p.id, Str(id))
  }

  /** `posts.filter(post => post.id !== id)`. */
  function Remaining(posts: seq<Post>, id: string): (r: seq<Post>)
    ensures |r| <= |posts|
    ensures forall p :: p in r ==> p in posts && !Matches(p, id)
  {
    if posts == [] then []
    else (if Matches(posts[0], id) then [] else [posts[0]]) + Remaining(posts[1..], id)
  }

  /** The number of posts whose id is strictly equal to `id`. */
  function MatchCount(posts: seq<Post>, id: string): nat {
    if posts == [] then 0
    else (if Matches(posts[0], id) then 1 else 0) + MatchCount(posts[1..], id)
  }

  /** `sub` is `s` with some elements dropped and the rest in their order. */
  predicate IsSubsequence(sub: seq<Post>, s: seq<Post>) {
    if sub == [] then true
    else if s == [] then false
    else if sub[0] == s[0] then IsSubsequence(sub[1..], s[1..])
    else IsSubsequence(sub, s[1..])
  }

  /** Deleting shortens the list by exactly the number of matching posts. */
  lemma {:induction false} RemainingLength(posts: seq<Post>, id: string)
    ensures |Remaining(posts, id)| == |posts| - MatchCount(posts, id)
  {
    if posts != [] {
      RemainingLength(posts[1..], id);
    }
  }

  /** A post survives a delete, as often as it occurred, exactly when its id
      is not the deleted one; a matching post does not survive at all. */
  lemma {:induction false} RemainingMultiplicity(posts: seq<Post>, id: string, p: Post)
    ensures !Matches(p, id) ==> multiset(Remaining(posts, id))[p] == multiset(posts)[p]
    ensures Matches(p, id) ==> multiset(Remaining(posts, id))[p] == 0
  {
    if posts != [] {
      RemainingMultiplicity(posts[1..], id, p);
      assert posts == [posts[0]] + posts[1..];
    }
  }

  /** Membership after a delete, in both directions. */
  lemma RemainingMembership(posts: seq<Post>, id: string, p: Post)
    ensures p in Remaining(posts, id) <==> p in posts && !Matches(p, id)
  {
    RemainingMultiplicity(posts, id, p);
  }

  /** Filtering distributes over concatenation. */
  lemma {:induction false} RemainingAppend(a: seq<Post>, b: seq<Post>, id: string)
    ensures Remaining(a + b, id) == Remaining(a, id) + Remaining(b, id)
  {
    if a != [] {
      assert (a + b)[1..] == a[1..] + b;
      RemainingAppend(a[1..], b, id);
    } else {
      assert a + b == b;
    }
  }

  /** The kept posts stay in their original relative order. */
  lemma {:induction false} RemainingIsSubsequence(posts: seq<Post>, id: string)
    ensures IsSubsequence(Remaining(posts, id), posts)
  {
    if posts != [] {
      RemainingIsSubsequence(posts[1..], id);
      var r := Remaining(posts, id);
      if !Matches(posts[0], id) {
        assert r == [posts[0]] + Remaining(posts[1..], id);
      } else {
        assert r == Remaining(posts[1..], id);
        if r != [] {
          assert r[0] in r;
          assert r[0] != posts[0];
        }
      }
    }
  }

  /** A delete changes nothing exactly when no post has the deleted id. */
  lemma RemainingUnchangedIff(posts: seq<Post>, id: string)
    ensures Remaining(posts, id) == posts <==> MatchCount(posts, id) == 0
  {
    RemainingLength(posts, id);
    NoMatchesIff(posts, id);
    if MatchCount(posts, id) == 0 {
      NoMatchesKeepsAll(posts, id);
    }
  }

  /** No post is counted exactly when no post has the deleted id. */
  lemma {:induction false} NoMatchesIff(posts: seq<Post>, id: string)
    ensures MatchCount(posts, id) == 0 <==> forall p :: p in posts ==> !Matches(p, id)
  {
    if posts != [] {
      NoMatchesIff(posts[1..], id);
      assert forall p :: p in posts <==> p == posts[0] || p in posts[1..];
    }
  }

  /** With nothing to remove, the filter returns the list itself. */
  lemma {:induction false} NoMatchesKeepsAll(posts: seq<Post>, id: string)
    requires MatchCount(posts, id) == 0
    ensures Remaining(posts, id) == posts
  {
    if posts != [] {
      NoMatchesKeepsAll(posts[1..], id);
      assert posts == [posts[0]] + posts[1..];
    }
  }

  /** Deleting the same id twice leaves what deleting it once left. */
  lemma RemainingIdempotent(posts: seq<Post>, id: string)
    ensures Remaining(Remaining(posts, id), id) == Remaining(posts, id)
  {
    var r := Remaining(posts, id);
    NoMatchesIff(r, id);
    NoMatchesKeepsAll(r, id);
  }

  /** Under strict equality a post whose id is not the identical string (a
      number, a boolean, null, a missing id, an object or another string) is
      never removed by a delete. */
  lemma NonMatchingIdKept(posts: seq<Post>, id: string, p: Post)
    requires p in posts
    requires !p.id.Str? || p.id.s != id
    ensures p in Remaining(posts, id)
  {
    RemainingMembership(posts, id, p);
  }

  /** Deleting after scheduling removes the new post only if it matches. */
  lemma ScheduleThenDelete(posts: seq<Post>, p: Post, id: string)
    ensures Remaining(posts + [p], id) ==
      Remaining(posts, id) + (if Matches(p, id) then [] else [p])
  {
    RemainingAppend(posts, [p], id);
    assert [p][1..] == [];
  }

  /** `{ success, message, post }` from the schedule endpoint. */
  datatype ScheduleReply = ScheduleReply(success: bool, message: string, post: Post)
  /** `{ success, posts }` from the list endpoint. */
  datatype ListReply = ListReply(success: bool, posts: seq<Post>)
  /** `{ success, message }` from the delete endpoint. */
  datatype DeleteReply = DeleteReply(success: bool, message: string)

  const ScheduledMessage: string := "Post scheduled successfully"
  const DeletedMessage: string := "Post deleted successfully"

  /** The process-wide `scheduledPosts` list; empty at start-up. */
  class PostStore {
    var posts: seq<Post>

    constructor ()
      ensures posts == []
    {
      posts := [];
    }

    /** POST /api/posts/schedule: append the request body and echo it. */
    method Schedule(post: Post) returns (reply: ScheduleReply)
      modifies this
      ensures posts == old(posts) + [post]
      ensures |posts| == |old(posts)| + 1 && posts[..|old(posts)|] == old(posts)
      ensures reply == ScheduleReply(true, ScheduledMessage, post)
      ensures reply.post == posts[|posts| - 1]
    {
      posts := posts + [post];
      reply := ScheduleReply(true, ScheduledMessage, post);
    }

    /** GET /api/posts/scheduled: every post, in arrival order. */
    method List() returns (reply: ListReply)
      ensures reply.success && reply.posts == posts
    {
      reply := ListReply(true, posts);
    }

    /** DELETE /api/posts/scheduled/:id: keep the posts whose id is not
        strictly equal to the path string; succeeds even if none matched. */
    method Delete(id: string) returns (reply: DeleteReply)
      modifies this
      ensures posts == Remaining(old(posts), id)
      ensures |posts| == |old(posts)| - MatchCount(old(posts), id)
      ensures forall p :: p in posts ==> !Matches(p, id)
      ensures reply == DeleteReply(true, DeletedMessage)
    {
      RemainingLength(posts, id);
      posts := Remaining(posts, id);
      reply := DeleteReply(true, DeletedMessage);
    }
  }

  /** A fresh store, one post scheduled, listed, deleted by the path id
      `id`, and listed again: the post is gone exactly when its id is that
      string. */
  method ExampleSession(p: Post, id: string) returns (echoed: Post, listed: seq<Post>, final: seq<Post>)
    ensures echoed == p && listed == [p]
    ensures final == (if p.id == Str(id) then [] else [p])
  {
    var store := new PostStore();
    var scheduled := store.Schedule(p);
    echoed := scheduled.post;
    var before := store.List();
    listed := before.posts;
    var deleted := store.Delete(id);
    var after := store.List();
    final := after.posts;
    ScheduleThenDelete([], p, id);
  }
}
