/** Post deletion and the image-replacing edits of a post or a profile, over a backend that
    holds post documents, user documents, saved-post records and stored files. */
module Posts {
  import opened Wrappers
  import opened Users
  import Tags

  /** A stored post document. */
  datatype PostDoc = PostDoc(creator: Id, caption: string, imageUrl: string, imageId: Id,
                             location: string, tags: seq<string>)

  /** The edit form of a post (`IUpdatePost`); `hasFile` is `file.length > 0`. */
  datatype PostUpdate = PostUpdate(postId: Id, caption: string, imageUrl: string, imageId: Id,
                                   location: Option<string>, tags: Option<string>, hasFile: bool)

  /** The edit form of a profile (`IUpdateUser`); `hasFile` is `file.length > 0`. */
  datatype UserUpdate = UserUpdate(userId: Id, name: string, username: string, bio: string,
                                   imageUrl: string, imageId: Id, hasFile: bool)

  /** How an `updateDocument` call answers: with the document, with a falsy value, or by
      rejecting. */
  datatype Reply = Updated | Falsy | Rejected

  /** Which `deleteFile` calls of an edit fail: the clean-up of the fresh upload, and the
      deletion of the replaced file. `deleteFile` swallows either failure. */
  datatype FileFaults = FileFaults(cleanup: bool, oldFile: bool)

  /** `!x` for an optional string argument: absent or empty. */
  predicate Missing(x: Option<string>) {
    x.None? || x.value == ""
  }

  // ---------------------------------------------------------------- lower case

  /** `c.toLowerCase()` on the ASCII letters. */
  function LowerChar(c: char): char {
    if 'A' <= c <= 'Z' then (c as int + 32) as char else c
  }

  /** `s.toLowerCase()`, on ASCII letters only. */
  function Lower(s: string): string
    decreases |s|
  {
    if s == [] then [] else [LowerChar(s[0])] + Lower(s[1..])
  }

  /** Lower-casing keeps the length, turns each upper-case ASCII letter into its lower-case
      letter, leaves every other character alone, and lower-casing again changes nothing. */
  lemma {:induction false} LowerSpec(s: string)
    ensures |Lower(s)| == |s|
    ensures forall i :: 0 <= i < |s| && 'A' <= s[i] <= 'Z' ==> Lower(s)[i] == (s[i] as int + 32) as char
    ensures forall i :: 0 <= i < |s| ==> !('A' <= Lower(s)[i] <= 'Z')
    ensures forall i :: 0 <= i < |s| && !('A' <= s[i] <= 'Z') ==> Lower(s)[i] == s[i]
    ensures Lower(Lower(s)) == Lower(s)
    decreases |s|
  {
    if s != [] {
      LowerSpec(s[1..]);
      assert Lower(s)[1..] == Lower(s[1..]);
      assert Lower(s)[0] == LowerChar(s[0]);
    }
  }

  // ---------------------------------------------------------------- saved records

  /** Deleting the saved records in order, stopping at the first one that fails. */
  datatype SavesResult = SavesResult(remaining: set<Id>, ok: bool)

  function DeleteSaves(saves: set<Id>, down: set<Id>, saved: seq<Id>): SavesResult
    decreases |saved|
  {
    if saved == [] then SavesResult(saves, true)
    else if saved[0] in saves && saved[0] !in down then DeleteSaves(saves - {saved[0]}, down, saved[1..])
    else SavesResult(saves, false)
  }

  /** Every listed record exists, none is unavailable, and none is listed twice. */
  predicate AllDeletable(saves: set<Id>, down: set<Id>, saved: seq<Id>) {
    (forall i :: 0 <= i < |saved| ==> saved[i] in saves && saved[i] !in down) &&
    (forall i, j :: 0 <= i < j < |saved| ==> saved[i] != saved[j])
  }

  /** Deleting one available record: the rest are deletable exactly when the record is not
      listed again and the rest are deletable from what remains. */
  lemma AllDeletableCons(saves: set<Id>, down: set<Id>, a: Id, rest: seq<Id>)
    requires a in saves && a !in down
    ensures AllDeletable(saves, down, [a] + rest) <==> a !in rest && AllDeletable(saves - {a}, down, rest)
  {
    var saved := [a] + rest;
    if AllDeletable(saves, down, saved) {
      forall i | 0 <= i < |rest| ensures rest[i] in saves - {a} && rest[i] !in down {
        assert saved[i + 1] == rest[i];
        assert saved[0] != saved[i + 1];
      }
      forall i, j | 0 <= i < j < |rest| ensures rest[i] != rest[j] {
        assert saved[i + 1] != saved[j + 1];
      }
      assert a !in rest;
    }
    if a !in rest && AllDeletable(saves - {a}, down, rest) {
      forall i, j | 0 <= i < j < |saved| ensures saved[i] != saved[j] {
        if i > 0 { assert rest[i - 1] != rest[j - 1]; }
        else { assert saved[j] == rest[j - 1]; }
      }
      forall i | 0 <= i < |saved| ensures saved[i] in saves && saved[i] !in down {
        if i > 0 { assert saved[i] == rest[i - 1]; }
      }
    }
  }

  /** Only listed records are removed, and on success every listed record is. */
  lemma {:induction false} DeleteSavesRemoves(saves: set<Id>, down: set<Id>, saved: seq<Id>)
    ensures DeleteSaves(saves, down, saved).remaining <= saves
    ensures forall x :: x in saves && x !in DeleteSaves(saves, down, saved).remaining ==> x in saved
    ensures DeleteSaves(saves, down, saved).ok ==>
      DeleteSaves(saves, down, saved).remaining == saves - set x | x in saved
    decreases |saved|
  {
    if saved != [] {
      var a, rest := saved[0], saved[1..];
      assert saved == [a] + rest;
      if a in saves && a !in down {
        DeleteSavesRemoves(saves - {a}, down, rest);
      }
    }
  }

  /** The deletions all succeed exactly when each record exists, each is available and none
      is listed twice (a second deletion of the same record fails). */
  lemma {:induction false} DeleteSavesOk(saves: set<Id>, down: set<Id>, saved: seq<Id>)
    ensures DeleteSaves(saves, down, saved).ok <==> AllDeletable(saves, down, saved)
    decreases |saved|
  {
    if saved != [] {
      var a, rest := saved[0], saved[1..];
      assert saved == [a] + rest;
      if a in saves && a !in down {
        DeleteSavesOk(saves - {a}, down, rest);
        AllDeletableCons(saves, down, a, rest);
        if a in rest {
          DeleteSavesRemoves(saves - {a}, down, rest);
          var j :| 0 <= j < |rest| && rest[j] == a;
          assert rest[j] !in saves - {a};
        }
      } else {
        assert saved[0] == a;
      }
    }
  }

  /** The deletions stop at record `j`: the records before it are all deleted, and record `j`
      is missing from what they left or is unavailable. */
  predicate StopsAt(saves: set<Id>, down: set<Id>, saved: seq<Id>, j: nat)
    requires j < |saved|
  {
    var before := saves - set x | x in saved[..j];
    AllDeletable(saves, down, saved[..j]) && (saved[j] !in before || saved[j] in down) &&
    DeleteSaves(saves, down, saved).remaining == before
  }

  /** When a deletion fails, everything stops at the first failing record. */
  lemma {:induction false} DeleteSavesStops(saves: set<Id>, down: set<Id>, saved: seq<Id>)
    ensures !DeleteSaves(saves, down, saved).ok ==>
      exists j :: 0 <= j < |saved| && StopsAt(saves, down, saved, j)
    decreases |saved|
  {
    if saved != [] && !DeleteSaves(saves, down, saved).ok {
      var a, rest := saved[0], saved[1..];
      assert saved == [a] + rest;
      if a in saves && a !in down {
        DeleteSavesStops(saves - {a}, down, rest);
        var j :| 0 <= j < |rest| && StopsAt(saves - {a}, down, rest, j);
        var pre, pre' := saved[..j + 1], rest[..j];
        assert pre == [a] + pre';
        assert saved[j + 1] == rest[j];
        AllDeletableCons(saves, down, a, pre');
        assert (set x | x in pre) == {a} + set x | x in pre';
        assert saves - (set x | x in pre) == (saves - {a}) - set x | x in pre';
        assert StopsAt(saves, down, saved, j + 1);
      } else {
        assert saved[..0] == [];
        assert (set x | x in saved[..0]) == {};
        assert StopsAt(saves, down, saved, 0);
      }
    }
  }

  /** Only listed records are removed; all of them go exactly when each exists, each is
      available and none is listed twice; otherwise the deletions stop at the first record
      that fails, with every record before it deleted and the rest kept. */
  lemma DeleteSavesSpec(saves: set<Id>, down: set<Id>, saved: seq<Id>)
    ensures DeleteSaves(saves, down, saved).remaining <= saves
    ensures forall x :: x in saves && x !in DeleteSaves(saves, down, saved).remaining ==> x in saved
    ensures DeleteSaves(saves, down, saved).ok <==> AllDeletable(saves, down, saved)
    ensures DeleteSaves(saves, down, saved).ok ==>
      DeleteSaves(saves, down, saved).remaining == saves - set x | x in saved
    ensures !DeleteSaves(saves, down, saved).ok ==>
      exists j :: 0 <= j < |saved| && StopsAt(saves, down, saved, j)
  {
    DeleteSavesStops(saves, down, saved);
    DeleteSavesRemoves(saves, down, saved);
    DeleteSavesOk(saves, down, saved);
  }

  // ---------------------------------------------------------------- the backend

  /** The document database and file storage the client talks to. A call that names an id
      in `down` is rejected; otherwise a call on a missing document or file is rejected.
      A `deleteFile` call can also fail on its own, as its caller's fault flag says. */
  class Backend {
    var posts: map<Id, PostDoc>
    var users: map<Id, UserDoc>
    var saves: set<Id>
    var files: set<Id>
    const down: set<Id>

    constructor (posts0: map<Id, PostDoc>, users0: map<Id, UserDoc>, saves0: set<Id>, files0: set<Id>, down0: set<Id>)
      ensures posts == posts0 && users == users0 && saves == saves0 && files == files0 && down == down0
    {
      posts, users, saves, files, down := posts0, users0, saves0, files0, down0;
    }

    /** `deleteSavedPost`: true (`{ status: "Ok" }`) when the record was deleted. */
    method DeleteSavedPost(id: Id) returns (ok: bool)
      modifies this`saves
      ensures ok == (id in old(saves) && id !in down)
      ensures saves == if ok then old(saves) - {id} else old(saves)
    {
      ok := id in saves && id !in down;
      if ok {
        saves := saves - {id};
      }
    }

    /** `databases.deleteDocument` on the post collection. */
    method DeletePostDocument(id: Id) returns (ok: bool)
      modifies this`posts
      ensures ok == (id in old(posts) && id !in down)
      ensures posts == if ok then old(posts) - {id} else old(posts)
    {
      ok := id in posts && id !in down;
      if ok {
        posts := posts - {id};
      }
    }

    /** `deleteFile`: the call fails when `fails` holds or the id is unavailable; the failure
        is caught and logged, so callers see no outcome. */
    method DeleteFile(id: Id, fails: bool)
      modifies this`files
      ensures files == if fails || id in down then old(files) else old(files) - {id}
    {
      if !fails && id !in down {
        files := files - {id};
      }
    }

    /** `uploadFile` under the id `ID.unique()` produced: true when the file was stored. */
    method UploadFile(id: Id) returns (ok: bool)
      modifies this`files
      ensures ok == (id !in old(files) && id !in down)
      ensures files == if ok then old(files) + {id} else old(files)
    {
      ok := id !in files && id !in down;
      if ok {
        files := files + {id};
      }
    }

    /** `databases.updateDocument` on the post collection; `answer` is how the service
        answers a request on an available, existing document. */
    method UpdatePostDocument(id: Id, edited: PostDoc, answer: Reply) returns (reply: Reply)
      modifies this`posts
      ensures reply == if id !in old(posts) || id in down then Rejected else answer
      ensures posts == if reply == Updated then old(posts)[id := edited] else old(posts)
    {
      reply := if id !in posts || id in down then Rejected else answer;
      if reply == Updated {
        posts := posts[id := edited];
      }
    }

    /** `databases.updateDocument` on the user collection. */
    method UpdateUserDocument(id: Id, edited: UserDoc, answer: Reply) returns (reply: Reply)
      modifies this`users
      ensures reply == if id !in old(users) || id in down then Rejected else answer
      ensures users == if reply == Updated then old(users)[id := edited] else old(users)
    {
      reply := if id !in users || id in down then Rejected else answer;
      if reply == Updated {
        users := users[id := edited];
      }
    }

    /** `deletePost`: nothing happens unless the post id, the image id and the saved list are
        all given (an empty list counts as given). The saved records go first, in order; the
        first failure stops everything before the post is touched. Then the post document;
        then its file, whose failure (`fileFails`, or an unavailable id) is swallowed without
        changing the result. */
    method DeletePost(postId: Option<Id>, imageId: Option<Id>, saved: Option<seq<Id>>, fileFails: bool) returns (ok: bool)
      modifies this`saves, this`posts, this`files
      ensures if Missing(postId) || Missing(imageId) || saved.None? then
          !ok && saves == old(saves) && posts == old(posts) && files == old(files)
        else
          var d := DeleteSaves(old(saves), down, saved.value);
          saves == d.remaining &&
          if !d.ok || postId.value !in old(posts) || postId.value in down then
            !ok && posts == old(posts) && files == old(files)
          else
            ok && posts == old(posts) - {postId.value} &&
            files == if fileFails || imageId.value in down then old(files) else old(files) - {imageId.value}
    {
      if Missing(postId) || Missing(imageId) || saved.None? {
        return false;
      }
      var records := saved.value;
      var i := 0;
      while i < |records|
        invariant 0 <= i <= |records|
        invariant DeleteSaves(old(saves), down, records) == DeleteSaves(saves, down, records[i..])
        invariant posts == old(posts) && files == old(files)
      {
        var deleted := DeleteSavedPost(records[i]);
        if !deleted {
          return false;
        }
        i := i + 1;
      }
      var removed := DeletePostDocument(postId.value);
      if !removed {
        return false;
      }
      DeleteFile(imageId.value, fileFails);
      return true;
    }

    /** The first steps of both edits: with a new file, upload it under `newFileId` and use
        its URL `fileUrl`, deleting the upload again when the URL is empty (a delete that
        can itself fail, `cleanupFails`, leaving the upload stored); fails (`None`) when the
        upload or the URL fails. Without a new file, the form's image is kept. */
    method ReplacementImage(hasFile: bool, imageUrl: string, imageId: Id, newFileId: Id, fileUrl: string,
                            cleanupFails: bool)
      returns (image: Option<(string, Id)>)
      modifies this`files
      ensures !hasFile ==> image == Some((imageUrl, imageId)) && files == old(files)
      ensures hasFile && (newFileId in old(files) || newFileId in down) ==> image.None? && files == old(files)
      ensures hasFile && newFileId !in old(files) && newFileId !in down ==>
        if fileUrl == "" then
          image.None? && files == if cleanupFails then old(files) + {newFileId} else old(files)
        else image == Some((fileUrl, newFileId)) && files == old(files) + {newFileId}
    {
      if !hasFile {
        return Some((imageUrl, imageId));
      }
      var uploaded := UploadFile(newFileId);
      if !uploaded {
        return None;
      }
      if fileUrl == "" {
        DeleteFile(newFileId, cleanupFails);
        return None;
      }
      return Some((fileUrl, newFileId));
    }

    /** `updatePost`. The update names the new image only once it is stored and has a URL.
        A falsy answer deletes the new file again, unless that delete fails. A rejected update
        leaves it stored, because the rejection skips that cleanup. The old file is deleted only after a successful
        update and only when a new file replaced it. The stored post keeps its creator and
        gets the caption, the image, the trimmed location (empty when absent) and the parsed
        tags. */
    method UpdatePost(u: PostUpdate, newFileId: Id, fileUrl: string, answer: Reply, f: FileFaults)
      returns (r: Option<PostDoc>)
      modifies this`posts, this`files
      ensures u.hasFile && (newFileId in old(files) || newFileId in down) ==>
        r.None? && posts == old(posts) && files == old(files)
      ensures u.hasFile && newFileId !in old(files) && newFileId !in down && fileUrl == "" ==>
        r.None? && posts == old(posts) &&
        files == if f.cleanup then old(files) + {newFileId} else old(files)
      ensures !u.hasFile || (newFileId !in old(files) && newFileId !in down && fileUrl != "") ==>
        var added := if u.hasFile then {newFileId} else {};
        if u.postId !in old(posts) || u.postId in down || answer == Rejected then
          r.None? && posts == old(posts) && files == old(files) + added
        else if answer == Falsy then
          r.None? && posts == old(posts) && files == old(files) + (if f.cleanup then added else {})
        else
          var edited := old(posts)[u.postId].(
            caption := u.caption,
            imageUrl := if u.hasFile then fileUrl else u.imageUrl,
            imageId := if u.hasFile then newFileId else u.imageId,
            location := Tags.Trim(u.location.GetOr("")),
            tags := Tags.ParseTags(u.tags));
          r == Some(edited) && posts == old(posts)[u.postId := edited] &&
          files == if u.hasFile && !f.oldFile && u.imageId !in down then (old(files) + added) - {u.imageId}
                   else old(files) + added
    {
      var image := ReplacementImage(u.hasFile, u.imageUrl, u.imageId, newFileId, fileUrl, f.cleanup);
      if image.None? {
        return None;
      }
      var tags := Tags.ParseTags(u.tags);
      var edited := PostDoc("", u.caption, image.value.0, image.value.1, Tags.Trim(u.location.GetOr("")), tags);
      if u.postId in posts {
        edited := edited.(creator := posts[u.postId].creator);
      }
      var reply := UpdatePostDocument(u.postId, edited, answer);
      if reply == Rejected {
        return None;
      }
      if reply == Falsy {
        if u.hasFile {
          DeleteFile(image.value.1, f.cleanup);
        }
        return None;
      }
      if u.hasFile {
        DeleteFile(u.imageId, f.oldFile);
      }
      return Some(edited);
    }

    /** `updateUser`: as `updatePost`, on the user document. The name, the lower-cased
        username, the bio and the image are written; the relationship lists are kept. The
        old file is deleted only when the form named one. */
    method UpdateUser(u: UserUpdate, newFileId: Id, fileUrl: string, answer: Reply, f: FileFaults)
      returns (r: Option<UserDoc>)
      modifies this`users, this`files
      ensures u.hasFile && (newFileId in old(files) || newFileId in down) ==>
        r.None? && users == old(users) && files == old(files)
      ensures u.hasFile && newFileId !in old(files) && newFileId !in down && fileUrl == "" ==>
        r.None? && users == old(users) &&
        files == if f.cleanup then old(files) + {newFileId} else old(files)
      ensures !u.hasFile || (newFileId !in old(files) && newFileId !in down && fileUrl != "") ==>
        var added := if u.hasFile then {newFileId} else {};
        if u.userId !in old(users) || u.userId in down || answer == Rejected then
          r.None? && users == old(users) && files == old(files) + added
        else if answer == Falsy then
          r.None? && users == old(users) && files == old(files) + (if f.cleanup then added else {})
        else
          var before := old(users)[u.userId];
          var edited := before.(attrs := before.attrs[
            "name" := u.name][
            "username" := Lower(u.username)][
            "bio" := u.bio][
            "imageUrl" := if u.hasFile then fileUrl else u.imageUrl][
            "imageId" := if u.hasFile then newFileId else u.imageId]);
          r == Some(edited) && users == old(users)[u.userId := edited] &&
          Following(edited) == Following(before) && Followers(edited) == Followers(before) &&
          files == if u.hasFile && u.imageId != "" && !f.oldFile && u.imageId !in down
                   then (old(files) + added) - {u.imageId}
                   else old(files) + added
    {
      var image := ReplacementImage(u.hasFile, u.imageUrl, u.imageId, newFileId, fileUrl, f.cleanup);
      if image.None? {
        return None;
      }
      var edited := UserDoc(None, None, map[]);
      if u.userId in users {
        edited := users[u.userId];
      }
      edited := edited.(attrs := edited.attrs[
        "name" := u.name][
        "username" := Lower(u.username)][
        "bio" := u.bio][
        "imageUrl" := image.value.0][
        "imageId" := image.value.1]);
      var reply := UpdateUserDocument(u.userId, edited, answer);
      if reply == Rejected {
        return None;
      }
      if reply == Falsy {
        if u.hasFile {
          DeleteFile(image.value.1, f.cleanup);
        }
        return None;
      }
      if u.imageId != "" && u.hasFile {
        DeleteFile(u.imageId, f.oldFile);
      }
      return Some(edited);
    }
  }
}
