/** `getRecentPosts`: the latest posts narrowed to the signed-in user and the users they follow. */
module Feed {
  import opened Wrappers
  import opened Seqs
  import opened Users

  /** A listed post: its `$id`, its creator's `$id` (`None` when the `creator` relationship
      is null, as after the creator's document was deleted) and its other attributes. */
  datatype Post = Post(id: Id, creator: Option<Id>, attrs: map<string, string>)

  /** Why the feed could not be built: no signed-in user, the listing was rejected, or a
      listed post has no creator, so reading `post.creator.$id` threw. */
  datatype FeedError = NoCurrentUser | ListFailed | CreatorMissing

  /** Every listed post has a creator, so the filter's `post.creator.$id` does not throw. */
  predicate AllHaveCreators(posts: seq<Post>) {
    forall i :: 0 <= i < |posts| ==> posts[i].creator.Some?
  }

  /** `ids.includes(post.creator.$id)`, for a post that has a creator. */
  predicate ByListed(p: Post, ids: seq<Id>) {
    p.creator.Some? && p.creator.value in ids
  }

  /** `posts.filter(post => ids.includes(post.creator.$id))`, on posts that have creators. */
  function FromCreators(posts: seq<Post>, ids: seq<Id>): seq<Post>
    decreases |posts|
  {
    if posts == [] then []
    else (if ByListed(posts[0], ids) then [posts[0]] else []) + FromCreators(posts[1..], ids)
  }

  /** The filter keeps exactly the posts whose creator is listed, each as many times as it
      was listed, in their listed order. */
  lemma {:induction false} FromCreatorsSpec(posts: seq<Post>, ids: seq<Id>)
    ensures forall p :: p in FromCreators(posts, ids) <==> p in posts && ByListed(p, ids)
    ensures forall p :: multiset(FromCreators(posts, ids))[p] == if ByListed(p, ids) then multiset(posts)[p] else 0
    ensures IsSubsequence(FromCreators(posts, ids), posts)
    decreases |posts|
  {
    if posts != [] {
      var rest := FromCreators(posts[1..], ids);
      FromCreatorsSpec(posts[1..], ids);
      assert posts == [posts[0]] + posts[1..];
      if ByListed(posts[0], ids) {
        assert FromCreators(posts, ids) == [posts[0]] + rest;
        assert ([posts[0]] + rest)[1..] == rest;
      } else {
        assert FromCreators(posts, ids) == rest;
      }
    }
  }

  /** The ids whose posts the feed shows: the user's `following` list (empty when absent)
      with the user's own id pushed onto it when it is not already there. The list is
      exactly the followed users and the user, and `following` is kept as its prefix. */
  method FeedCreators(user: CurrentUser) returns (ids: seq<Id>)
    ensures forall x :: x in ids <==> x in Following(user.doc) || x == user.id
    ensures |Following(user.doc)| <= |ids| && ids[..|Following(user.doc)|] == Following(user.doc)
    ensures |ids| == |Following(user.doc)| + (if user.id in Following(user.doc) then 0 else 1)
  {
    ids := user.doc.following.GetOr([]);
    if user.id !in ids {
      ids := ids + [user.id];
    }
  }

  /** `getRecentPosts`: fails without a signed-in user, when the listing is rejected, or when
      a listed post has no creator (the filter throws and the error is rethrown); otherwise
      keeps, in listed order and with their multiplicity, exactly the listed posts created by
      the user or by someone the user follows. */
  method GetRecentPosts(currentUser: Option<CurrentUser>, listed: Option<seq<Post>>)
    returns (r: Result<seq<Post>, FeedError>)
    ensures currentUser.None? ==> r == Failure(NoCurrentUser)
    ensures currentUser.Some? && listed.None? ==> r == Failure(ListFailed)
    ensures currentUser.Some? && listed.Some? && !AllHaveCreators(listed.value) ==>
      r == Failure(CreatorMissing)
    ensures currentUser.Some? && listed.Some? && AllHaveCreators(listed.value) ==>
      var user := currentUser.value;
      r.Success? &&
      (forall p :: p in r.value <==>
        (p in listed.value &&
         (p.creator == Some(user.id) || (p.creator.Some? && p.creator.value in Following(user.doc))))) &&
      (forall p :: multiset(r.value)[p] ==
        if p.creator == Some(user.id) || (p.creator.Some? && p.creator.value in Following(user.doc))
        then multiset(listed.value)[p] else 0) &&
      IsSubsequence(r.value, listed.value)
  {
    if currentUser.None? {
      return Failure(NoCurrentUser);
    }
    var ids := FeedCreators(currentUser.value);
    if listed.None? {
      return Failure(ListFailed);
    }
    if !AllHaveCreators(listed.value) {
      return Failure(CreatorMissing);
    }
    var filtered := FromCreators(listed.value, ids);
    FromCreatorsSpec(listed.value, ids);
    return Success(filtered);
  }
}
