/** User documents as the remote document service stores them. */
module Users {
  import opened Wrappers

  /** A document id (`$id`). */
  type Id = string

  /** A user document: the two relationship lists, each of which may be absent from the
      document, and every other attribute (name, username, bio, image, ...) as one map. */
  datatype UserDoc = UserDoc(following: Option<seq<Id>>, follower: Option<seq<Id>>, attrs: map<string, string>)

  /** The signed-in user's document together with its `$id`. */
  datatype CurrentUser = CurrentUser(id: Id, doc: UserDoc)

  /** `doc.following || []`: an absent list reads as empty. */
  function Following(d: UserDoc): seq<Id> {
    d.following.GetOr([])
  }

  /** `doc.follower || []`: an absent list reads as empty. */
  function Followers(d: UserDoc): seq<Id> {
    d.follower.GetOr([])
  }
}
