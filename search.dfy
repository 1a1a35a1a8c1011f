/** `searchUsers`: two searches over the user collection, merged with duplicates removed. */
module Search {
  import opened Wrappers
  import opened Seqs
  import opened Users

  /** A user document as a listing returns it: its `$id` and its other attributes. */
  datatype UserHit = UserHit(id: Id, attrs: map<string, string>)

  /** What a `listDocuments` call gives: a rejection, or a response whose `documents`
      field may be absent. */
  datatype ListResponse = Rejected | Resolved(documents: Option<seq<UserHit>>)

  /** The structured result `{ total, documents }`. */
  datatype SearchResult = SearchResult(total: nat, documents: seq<UserHit>)

  /** `s.some(u => u.$id === id)`. */
  predicate HasId(s: seq<UserHit>, id: Id) {
    exists i :: 0 <= i < |s| && s[i].id == id
  }

  /** The `reduce` that keeps a hit only when no kept hit has its id, as a left fold. */
  function Dedup(s: seq<UserHit>): seq<UserHit>
    decreases |s|
  {
    if s == [] then []
    else
      var kept := Dedup(s[..|s| - 1]);
      if HasId(kept, s[|s| - 1].id) then kept else kept + [s[|s| - 1]]
  }

  /** The first hit in `s` with that id. */
  function FirstWith(s: seq<UserHit>, id: Id): UserHit
    requires HasId(s, id)
    decreases |s|
  {
    if s[0].id == id then s[0]
    else
      assert HasId(s[1..], id) by {
        var i :| 0 <= i < |s| && s[i].id == id;
        assert s[1..][i - 1].id == id;
      }
      FirstWith(s[1..], id)
  }

  /** The position of the first hit in `s` with that id. */
  function FirstIndex(s: seq<UserHit>, id: Id): (i: nat)
    requires HasId(s, id)
    ensures i < |s| && s[i].id == id
    ensures forall j :: 0 <= j < i ==> s[j].id != id
    decreases |s|
  {
    if s[0].id == id then 0
    else
      assert HasId(s[1..], id) by {
        var i :| 0 <= i < |s| && s[i].id == id;
        assert s[1..][i - 1].id == id;
      }
      var i' := FirstIndex(s[1..], id);
      assert s[i' + 1] == s[1..][i'];
      assert forall j :: 1 <= j <= i' ==> s[j] == s[1..][j - 1];
      i' + 1
  }

  /** The ids in a sequence are pairwise different. */
  predicate DistinctIds(s: seq<UserHit>) {
    forall i, j :: 0 <= i < j < |s| ==> s[i].id != s[j].id
  }

  // ---------------------------------------------------------------- helper facts

  lemma HasIdSnoc(s: seq<UserHit>, x: UserHit, id: Id)
    ensures HasId(s + [x], id) <==> HasId(s, id) || x.id == id
  {
    if HasId(s, id) {
      var i :| 0 <= i < |s| && s[i].id == id;
      assert (s + [x])[i] == s[i];
    }
    if x.id == id {
      assert (s + [x])[|s|] == x;
    }
    if HasId(s + [x], id) && x.id != id {
      var i :| 0 <= i < |s + [x]| && (s + [x])[i].id == id;
      assert s[i] == (s + [x])[i];
    }
  }

  lemma {:induction false} FirstWithSnoc(s: seq<UserHit>, x: UserHit, id: Id)
    requires HasId(s, id)
    ensures HasId(s + [x], id) && FirstWith(s + [x], id) == FirstWith(s, id)
    decreases |s|
  {
    HasIdSnoc(s, x, id);
    assert (s + [x])[0] == s[0];
    if s[0].id != id {
      var i :| 0 <= i < |s| && s[i].id == id;
      assert s[1..][i - 1].id == id;
      assert (s + [x])[1..] == s[1..] + [x];
      FirstWithSnoc(s[1..], x, id);
    }
  }

  lemma {:induction false} FirstWithNew(s: seq<UserHit>, x: UserHit)
    requires !HasId(s, x.id)
    ensures HasId(s + [x], x.id) && FirstWith(s + [x], x.id) == x
    decreases |s|
  {
    HasIdSnoc(s, x, x.id);
    if s != [] {
      assert (s + [x])[0] == s[0];
      assert (s + [x])[1..] == s[1..] + [x];
      FirstWithNew(s[1..], x);
    }
  }

  lemma FirstIndexSnoc(s: seq<UserHit>, x: UserHit, id: Id)
    requires HasId(s, id)
    ensures HasId(s + [x], id) && FirstIndex(s + [x], id) == FirstIndex(s, id)
  {
    HasIdSnoc(s, x, id);
    var i, i' := FirstIndex(s, id), FirstIndex(s + [x], id);
    assert (s + [x])[i] == s[i];
  }

  lemma FirstIndexNew(s: seq<UserHit>, x: UserHit)
    requires !HasId(s, x.id)
    ensures HasId(s + [x], x.id) && FirstIndex(s + [x], x.id) == |s|
  {
    HasIdSnoc(s, x, x.id);
    assert (s + [x])[|s|] == x;
  }

  // ---------------------------------------------------------------- the merge

  /** The merge has the same ids as its input. */
  lemma {:induction false} DedupIds(s: seq<UserHit>)
    ensures forall id :: HasId(Dedup(s), id) <==> HasId(s, id)
    decreases |s|
  {
    if s != [] {
      var p, x := s[..|s| - 1], s[|s| - 1];
      assert s == p + [x];
      DedupIds(p);
      forall id ensures HasId(s, id) <==> HasId(p, id) || x.id == id {
        HasIdSnoc(p, x, id);
      }
      if !HasId(Dedup(p), x.id) {
        forall id ensures HasId(Dedup(p) + [x], id) <==> HasId(Dedup(p), id) || x.id == id {
          HasIdSnoc(Dedup(p), x, id);
        }
      }
    }
  }

  /** No id occurs twice in the merge. */
  lemma {:induction false} DedupDistinct(s: seq<UserHit>)
    ensures DistinctIds(Dedup(s))
    decreases |s|
  {
    if s != [] {
      var p, x := s[..|s| - 1], s[|s| - 1];
      var kept := Dedup(p);
      DedupDistinct(p);
      if !HasId(kept, x.id) {
        var r := kept + [x];
        forall i, j | 0 <= i < j < |r| ensures r[i].id != r[j].id {
          if j == |kept| {
            assert r[i] == kept[i];
          } else {
            assert r[i] == kept[i] && r[j] == kept[j];
          }
        }
      }
    }
  }

  /** Each kept hit is the first hit with its id. */
  lemma {:induction false} DedupFirst(s: seq<UserHit>)
    ensures forall i :: 0 <= i < |Dedup(s)| ==>
      HasId(s, Dedup(s)[i].id) && Dedup(s)[i] == FirstWith(s, Dedup(s)[i].id)
    decreases |s|
  {
    if s != [] {
      var p, x := s[..|s| - 1], s[|s| - 1];
      assert s == p + [x];
      var kept := Dedup(p);
      DedupFirst(p);
      DedupIds(p);
      var r := Dedup(s);
      forall i | 0 <= i < |r|
        ensures HasId(s, r[i].id) && r[i] == FirstWith(s, r[i].id)
      {
        if i < |kept| {
          assert r[i] == kept[i];
          FirstWithSnoc(p, x, kept[i].id);
        } else {
          assert r[i] == x && !HasId(p, x.id);
          FirstWithNew(p, x);
        }
      }
    }
  }

  /** The merge keeps its hits in input order. */
  lemma {:induction false} DedupOrder(s: seq<UserHit>)
    ensures IsSubsequence(Dedup(s), s)
    decreases |s|
  {
    if s != [] {
      var p, x := s[..|s| - 1], s[|s| - 1];
      assert s == p + [x];
      DedupOrder(p);
      if HasId(Dedup(p), x.id) {
        SubsequenceExtend(Dedup(p), p, x);
      } else {
        SubsequenceAppend(Dedup(p), p, x);
      }
    }
  }

  /** The kept hits are in the order their ids first occur in the input. */
  lemma {:induction false} DedupFirstOrder(s: seq<UserHit>)
    ensures forall i :: 0 <= i < |Dedup(s)| ==> HasId(s, Dedup(s)[i].id)
    ensures forall i, j :: 0 <= i < j < |Dedup(s)| ==>
      HasId(s, Dedup(s)[i].id) && HasId(s, Dedup(s)[j].id) &&
      FirstIndex(s, Dedup(s)[i].id) < FirstIndex(s, Dedup(s)[j].id)
    decreases |s|
  {
    if s != [] {
      var p, x := s[..|s| - 1], s[|s| - 1];
      assert s == p + [x];
      var kept := Dedup(p);
      DedupFirstOrder(p);
      var r := Dedup(s);
      forall i | 0 <= i < |r| ensures HasId(s, r[i].id) {
        if i < |kept| {
          assert r[i] == kept[i];
          HasIdSnoc(p, x, kept[i].id);
        } else {
          HasIdSnoc(p, x, x.id);
        }
      }
      forall i, j | 0 <= i < j < |r|
        ensures FirstIndex(s, r[i].id) < FirstIndex(s, r[j].id)
      {
        assert r[i] == kept[i];
        FirstIndexSnoc(p, x, kept[i].id);
        if j < |kept| {
          assert r[j] == kept[j];
          FirstIndexSnoc(p, x, kept[j].id);
        } else {
          assert r[j] == x && !HasId(kept, x.id);
          DedupIds(p);
          FirstIndexNew(p, x);
        }
      }
    }
  }

  /** The merge keeps exactly one hit per id, the first one met, in the order met: its ids
      are distinct, it has the same ids as its input, each kept hit is the first with its
      id, it is a subsequence of the input, and its hits are ordered by where their ids
      first occur. */
  lemma DedupSpec(s: seq<UserHit>)
    ensures DistinctIds(Dedup(s))
    ensures forall id :: HasId(Dedup(s), id) <==> HasId(s, id)
    ensures forall i :: 0 <= i < |Dedup(s)| ==>
      HasId(s, Dedup(s)[i].id) && Dedup(s)[i] == FirstWith(s, Dedup(s)[i].id)
    ensures IsSubsequence(Dedup(s), s)
    ensures forall i, j :: 0 <= i < j < |Dedup(s)| ==>
      HasId(s, Dedup(s)[i].id) && HasId(s, Dedup(s)[j].id) &&
      FirstIndex(s, Dedup(s)[i].id) < FirstIndex(s, Dedup(s)[j].id)
  {
    DedupFirstOrder(s);
    DedupDistinct(s);
    DedupIds(s);
    DedupFirst(s);
    DedupOrder(s);
  }

  /** The merged list is empty only when both listings were. */
  lemma DedupEmpty(s: seq<UserHit>)
    ensures Dedup(s) == [] <==> s == []
  {
    DedupSpec(s);
    if s != [] {
      assert HasId(s, s[0].id);
    }
  }

  /** `response.documents || []` for a resolved listing. */
  function Documents(r: ListResponse): seq<UserHit>
    requires r.Resolved?
  {
    r.documents.GetOr([])
  }

  /** `searchUsers`: `None` (the caught error's `undefined`) when either listing is rejected
      or when the merge is empty (`if (!result.total) throw`); otherwise the listings by name
      then by username, merged without duplicate ids, with `total` their number. */
  method SearchUsers(byName: ListResponse, byUsername: ListResponse) returns (r: Option<SearchResult>)
    ensures byName.Rejected? || byUsername.Rejected? ==> r.None?
    ensures byName.Resolved? && byUsername.Resolved? ==>
      var all := Documents(byName) + Documents(byUsername);
      (r.None? <==> all == []) &&
      (r.Some? ==> r.value.documents == Dedup(all) && r.value.total == |r.value.documents|)
  {
    if byName.Rejected? {
      return None;
    }
    var usersByName := byName.documents.GetOr([]);
    if byUsername.Rejected? {
      return None;
    }
    var usersByUsername := byUsername.documents.GetOr([]);
    var combined := usersByName + usersByUsername;
    var acc: seq<UserHit> := [];
    var i := 0;
    while i < |combined|
      invariant 0 <= i <= |combined|
      invariant acc == Dedup(combined[..i])
    {
      assert combined[..i + 1][..i] == combined[..i];
      var user := combined[i];
      if !HasId(acc, user.id) {
        acc := acc + [user];
      }
      i := i + 1;
    }
    assert combined[..i] == combined;
    DedupEmpty(combined);
    var result := SearchResult(|acc|, acc);
    if result.total == 0 {
      return None;
    }
    return Some(result);
  }
}
