/** What `followUser` and its queue promise, proved about the model in module Follow. */
module FollowProperties {
  import opened Wrappers
  import opened Users
  import opened Seqs
  import opened Follow

  // ---------------------------------------------------------------- list toggle

  /** Removing drops every occurrence of `x` and keeps every other element, with its
      multiplicity, in its original order. */
  lemma {:induction false} RemoveSpec(s: seq<Id>, x: Id)
    ensures x !in Remove(s, x)
    ensures multiset(Remove(s, x)) == multiset(s)[x := 0]
    ensures IsSubsequence(Remove(s, x), s)
  {
    if s != [] {
      RemoveSpec(s[1..], x);
      assert s == [s[0]] + s[1..];
      var r := Remove(s, x);
      if s[0] != x {
        assert r == [s[0]] + Remove(s[1..], x);
        assert r[1..] == Remove(s[1..], x);
      }
    }
  }

  /** Removing an id that is absent changes nothing. */
  lemma {:induction false} RemoveAbsent(s: seq<Id>, x: Id)
    requires x !in s
    ensures Remove(s, x) == s
  {
    if s != [] {
      RemoveAbsent(s[1..], x);
      assert s == [s[0]] + s[1..];
    }
  }

  /** Removing an id that was just appended to a list without it gives the list back. */
  lemma {:induction false} RemoveAppended(s: seq<Id>, x: Id)
    requires x !in s
    ensures Remove(s + [x], x) == s
  {
    if s == [] {
      assert [] + [x] == [x];
      assert [x][1..] == [];
    } else {
      assert (s + [x])[1..] == s[1..] + [x];
      RemoveAppended(s[1..], x);
      assert s == [s[0]] + s[1..];
    }
  }

  /** Toggling flips membership: present ids are removed everywhere (the rest kept in order),
      absent ids are appended at the end. */
  lemma ToggleSpec(s: seq<Id>, x: Id)
    ensures (x in Toggle(s, x)) <==> (x !in s)
    ensures x in s ==> multiset(Toggle(s, x)) == multiset(s)[x := 0] && IsSubsequence(Toggle(s, x), s)
    ensures x !in s ==> Toggle(s, x) == s + [x]
  {
    RemoveSpec(s, x);
  }

  /** Two toggles restore membership, and restore the list exactly when `x` was absent;
      when it was present, every copy collapses into one at the end. */
  lemma ToggleTwice(s: seq<Id>, x: Id)
    ensures (x in Toggle(Toggle(s, x), x)) == (x in s)
    ensures x !in s ==> Toggle(Toggle(s, x), x) == s
    ensures x in s ==> Toggle(Toggle(s, x), x) == Remove(s, x) + [x]
  {
    ToggleSpec(s, x);
    if x in s {
      ToggleSpec(Toggle(s, x), x);
    } else {
      RemoveAppended(s, x);
    }
  }

  // ---------------------------------------------------------------- one task

  /** A task settles `Ok` exactly when both documents exist and none of its four calls fails. */
  lemma TaskSucceedsIff(docs: Docs, r: Request, f: Faults)
    ensures RunTask(docs, r, f).outcome == Ok <==> (r.actor in docs && r.target in docs && f == NoFaults)
  {
  }

  /** After a successful task, the target's membership in the actor's `following` and the
      actor's membership in the target's `follower` are both flipped, each list toggled from
      its fresh read (an absent list read as empty). */
  lemma SuccessfulTaskToggles(docs: Docs, r: Request, f: Faults)
    requires RunTask(docs, r, f).outcome == Ok
    ensures r.actor in docs && r.target in docs
    ensures var after := RunTask(docs, r, f).docs;
      r.actor in after && r.target in after &&
      after[r.actor].following == Some(Toggle(Following(docs[r.actor]), r.target)) &&
      after[r.target].follower == Some(Toggle(Followers(docs[r.target]), r.actor)) &&
      (r.target in Following(after[r.actor]) <==> r.target !in Following(docs[r.actor])) &&
      (r.actor in Followers(after[r.target]) <==> r.actor !in Followers(docs[r.target]))
  {
    ToggleSpec(Following(docs[r.actor]), r.target);
    ToggleSpec(Followers(docs[r.target]), r.actor);
  }

  /** Whatever its outcome, a task writes at most the actor's `following` and the target's
      `follower`: no document appears or disappears, and every other field and every other
      document is left as it was. */
  lemma TaskFrame(docs: Docs, r: Request, f: Faults)
    ensures var after := RunTask(docs, r, f).docs;
      after.Keys == docs.Keys &&
      forall id :: id in docs ==>
        after[id].attrs == docs[id].attrs &&
        (id != r.actor ==> after[id].following == docs[id].following) &&
        (id != r.target ==> after[id].follower == docs[id].follower)
  {
    if !f.readActor && r.actor in docs && !f.readTarget && r.target in docs && !f.writeFollowing {
      var mid := WithFollowing(docs, r.actor, ToggledFollowing(docs, r));
      WithFollowingFrame(docs, r.actor, ToggledFollowing(docs, r));
      if !f.writeFollower {
        WithFollowerFrame(mid, r.target, ToggledFollowers(docs, r));
      }
    }
  }

  /** Writing `following` changes that one field of that one document. */
  lemma WithFollowingFrame(docs: Docs, id: Id, ids: seq<Id>)
    requires id in docs
    ensures var after := WithFollowing(docs, id, ids);
      after.Keys == docs.Keys &&
      forall x :: x in docs ==>
        after[x].attrs == docs[x].attrs && after[x].follower == docs[x].follower &&
        (x != id ==> after[x].following == docs[x].following)
  {
  }

  /** Writing `follower` changes that one field of that one document. */
  lemma WithFollowerFrame(docs: Docs, id: Id, ids: seq<Id>)
    requires id in docs
    ensures var after := WithFollower(docs, id, ids);
      after.Keys == docs.Keys &&
      forall x :: x in docs ==>
        after[x].attrs == docs[x].attrs && after[x].following == docs[x].following &&
        (x != id ==> after[x].follower == docs[x].follower)
  {
  }

  /** If either document cannot be read the task fails, only reads were issued, and the store
      is unchanged. A missing document that was actually looked up fails with NotFound. */
  lemma ReadFailureWritesNothing(docs: Docs, r: Request, f: Faults)
    requires f.readActor || r.actor !in docs || f.readTarget || r.target !in docs
    ensures var t := RunTask(docs, r, f);
      t.docs == docs && t.outcome.Fail? &&
      forall i :: 0 <= i < |t.calls| ==> t.calls[i].GetDoc?
    ensures !f.readActor && !f.readTarget && (r.actor !in docs || r.target !in docs) ==>
      RunTask(docs, r, f).outcome == Fail(NotFound)
  {
  }

  /** A failed task that did not get past its first write leaves the store unchanged. */
  lemma FailureBeforeSecondWrite(docs: Docs, r: Request, f: Faults)
    requires RunTask(docs, r, f).outcome.Fail? && !HalfApplied(docs, r, f)
    ensures RunTask(docs, r, f).docs == docs
  {
  }

  /** The two relationship lists agree about the pair: the actor follows the target exactly
      when the target lists the actor as a follower. */
  predicate Mutual(docs: Docs, r: Request)
    requires r.actor in docs && r.target in docs
  {
    (r.target in Following(docs[r.actor])) == (r.actor in Followers(docs[r.target]))
  }

  /** A failing second write leaves only the first write in place, and there is no repair:
      a pair whose lists agreed before no longer agrees. */
  lemma HalfUpdate(docs: Docs, r: Request, f: Faults)
    requires HalfApplied(docs, r, f)
    ensures var t := RunTask(docs, r, f);
      t.outcome == Fail(RemoteError) &&
      t.docs == WithFollowing(docs, r.actor, ToggledFollowing(docs, r)) &&
      t.docs[r.target].follower == docs[r.target].follower
    ensures Mutual(docs, r) ==> !Mutual(RunTask(docs, r, f).docs, r)
  {
    ToggleSpec(Following(docs[r.actor]), r.target);
  }

  /** Two successful toggles of the same pair, back to back, restore both memberships; each
      list is restored exactly when the id was absent from it to begin with. */
  lemma ToggleTwiceRestores(docs: Docs, r: Request, f1: Faults, f2: Faults)
    requires RunTask(docs, r, f1).outcome == Ok
    requires RunTask(RunTask(docs, r, f1).docs, r, f2).outcome == Ok
    ensures var after := RunTask(RunTask(docs, r, f1).docs, r, f2).docs;
      r.actor in docs && r.target in docs && after.Keys == docs.Keys &&
      (r.target in Following(after[r.actor])) == (r.target in Following(docs[r.actor])) &&
      (r.actor in Followers(after[r.target])) == (r.actor in Followers(docs[r.target])) &&
      (r.target !in Following(docs[r.actor]) ==> Following(after[r.actor]) == Following(docs[r.actor])) &&
      (r.actor !in Followers(docs[r.target]) ==> Followers(after[r.target]) == Followers(docs[r.target]))
  {
    var mid := RunTask(docs, r, f1).docs;
    SuccessfulTaskToggles(docs, r, f1);
    SuccessfulTaskToggles(mid, r, f2);
    ToggleTwice(Following(docs[r.actor]), r.target);
    ToggleTwice(Followers(docs[r.target]), r.actor);
  }

  // ---------------------------------------------------------------- the queue

  /** Tagging keeps the calls and their order and stamps each with the task number. */
  lemma {:induction false} TaggedSpec(k: nat, ops: seq<Op>)
    ensures |Tagged(k, ops)| == |ops|
    ensures forall i :: 0 <= i < |ops| ==> Tagged(k, ops)[i] == Call(k, ops[i])
    decreases |ops|
  {
    if ops != [] {
      TaggedSpec(k, ops[1..]);
    }
  }

  /** Every task's first call is the fresh read of the actor's document. */
  lemma TaskStartsWithRead(docs: Docs, r: Request, f: Faults)
    ensures |RunTask(docs, r, f).calls| >= 1 && RunTask(docs, r, f).calls[0] == GetDoc(r.actor)
  {
  }

  /** Every queued request settles, whether or not the ones before it failed. */
  lemma {:induction false} EveryRequestSettles(docs: Docs, k: nat, reqs: seq<Request>, faults: nat -> Faults)
    ensures |RunAll(docs, k, reqs, faults).outcomes| == |reqs|
    decreases |reqs|
  {
    if reqs != [] {
      EveryRequestSettles(RunTask(docs, reqs[0], faults(k)).docs, k + 1, reqs[1..], faults);
    }
  }

  /** Running two queues back to back is running the first, then the second from where the
      first left the store, whatever each task does. */
  lemma {:induction false} FoldAppend(docs: Docs, k: nat, a: seq<Request>, b: seq<Request>, step: Step)
    ensures var front := Fold(docs, k, a, step);
      var back := Fold(front.docs, k + |a|, b, step);
      Fold(docs, k, a + b, step) == RunResult(back.docs, front.outcomes + back.outcomes)
    decreases |a|
  {
    if a == [] {
      assert a + b == b;
      assert [] + Fold(docs, k, b, step).outcomes == Fold(docs, k, b, step).outcomes;
    } else {
      var t := step(docs, a[0], k);
      assert (a + b)[0] == a[0] && (a + b)[1..] == a[1..] + b;
      FoldAppend(t.docs, k + 1, a[1..], b, step);
      var restFront := Fold(t.docs, k + 1, a[1..], step);
      var back := Fold(restFront.docs, k + |a|, b, step);
      assert [t.outcome] + (restFront.outcomes + back.outcomes) == ([t.outcome] + restFront.outcomes) + back.outcomes;
    }
  }

  /** Running a queue is running its first `j` requests, then the rest from where they left
      the store. */
  lemma RunAllSplit(docs: Docs, k: nat, reqs: seq<Request>, faults: nat -> Faults, j: nat)
    requires j <= |reqs|
    ensures var front := RunAll(docs, k, reqs[..j], faults);
      var back := RunAll(front.docs, k + j, reqs[j..], faults);
      RunAll(docs, k, reqs, faults) == RunResult(back.docs, front.outcomes + back.outcomes)
  {
    assert reqs == reqs[..j] + reqs[j..];
    FoldAppend(docs, k, reqs[..j], reqs[j..], TaskStep(faults));
  }

  /** Task `j` runs on the store exactly as the tasks before it left it, successful or not. */
  lemma TaskSeesPredecessors(docs: Docs, k: nat, reqs: seq<Request>, faults: nat -> Faults, j: nat)
    requires j < |reqs|
    ensures |RunAll(docs, k, reqs, faults).outcomes| == |reqs|
    ensures RunAll(docs, k, reqs, faults).outcomes[j] ==
      RunTask(RunAll(docs, k, reqs[..j], faults).docs, reqs[j], faults(k + j)).outcome
  {
    EveryRequestSettles(docs, k, reqs, faults);
    EveryRequestSettles(docs, k, reqs[..j], faults);
    RunAllSplit(docs, k, reqs, faults, j);
  }

  /** Task numbers never go down along the log. */
  predicate TasksInOrder(c: seq<Call>) {
    forall p, q :: 0 <= p < q < |c| ==> c[p].task <= c[q].task
  }

  /** Every call belongs to one of tasks `k`, ..., `k + n - 1`. */
  predicate TasksInRange(c: seq<Call>, k: nat, n: nat) {
    forall p :: 0 <= p < |c| ==> k <= c[p].task < k + n
  }

  /** Each task's block of calls begins with a fresh read of that task's actor. */
  predicate BlocksStartWithRead(c: seq<Call>, k: nat, reqs: seq<Request>)
    requires TasksInRange(c, k, |reqs|)
  {
    forall p :: 0 <= p < |c| && (p == 0 || c[p - 1].task < c[p].task) ==>
      c[p].op == GetDoc(reqs[c[p].task - k].actor)
  }

  /** A log is serialised for tasks `k`, `k + 1`, ... running `reqs`: task numbers never go
      down and stay in range, so each task's calls form one block, and each block begins with a
      fresh read of that task's actor. */
  predicate Serialised(c: seq<Call>, k: nat, reqs: seq<Request>) {
    TasksInOrder(c) && TasksInRange(c, k, |reqs|) && BlocksStartWithRead(c, k, reqs)
  }

  /** The block-start condition of a serialised log, at one position. */
  lemma SerialisedAt(c: seq<Call>, k: nat, reqs: seq<Request>, p: nat)
    requires Serialised(c, k, reqs) && p < |c| && (p == 0 || c[p - 1].task < c[p].task)
    ensures k <= c[p].task < k + |reqs| && c[p].op == GetDoc(reqs[c[p].task - k].actor)
  {
  }

  lemma InOrderCons(head: seq<Call>, rest: seq<Call>, k: nat)
    requires forall i :: 0 <= i < |head| ==> head[i].task == k
    requires TasksInOrder(rest) && forall p :: 0 <= p < |rest| ==> k < rest[p].task
    ensures TasksInOrder(head + rest)
  {
    var c := head + rest;
    forall p, q | 0 <= p < q < |c|
      ensures c[p].task <= c[q].task
    {
      if q >= |head| {
        assert c[q] == rest[q - |head|];
        if p >= |head| {
          assert c[p] == rest[p - |head|];
        } else {
          assert c[p] == head[p];
        }
      } else {
        assert c[p] == head[p] && c[q] == head[q];
      }
    }
  }

  lemma InRangeCons(head: seq<Call>, rest: seq<Call>, k: nat, n: nat)
    requires forall i :: 0 <= i < |head| ==> head[i].task == k
    requires TasksInRange(rest, k + 1, n)
    ensures TasksInRange(head + rest, k, n + 1)
  {
    var c := head + rest;
    forall p | 0 <= p < |c| ensures k <= c[p].task < k + n + 1 {
      if p < |head| {
        assert c[p] == head[p];
      } else {
        assert c[p] == rest[p - |head|];
      }
    }
  }

  lemma BlocksCons(head: seq<Call>, rest: seq<Call>, k: nat, reqs: seq<Request>)
    requires reqs != [] && head != [] && head[0].op == GetDoc(reqs[0].actor)
    requires forall i :: 0 <= i < |head| ==> head[i].task == k
    requires Serialised(rest, k + 1, reqs[1..])
    requires TasksInRange(head + rest, k, |reqs|)
    ensures BlocksStartWithRead(head + rest, k, reqs)
  {
    var c := head + rest;
    forall p | 0 < p < |head| ensures c[p - 1].task == c[p].task {
      assert c[p - 1] == head[p - 1] && c[p] == head[p];
    }
    forall p | 0 <= p < |c| && (p == 0 || c[p - 1].task < c[p].task)
      ensures c[p].op == GetDoc(reqs[c[p].task - k].actor)
    {
      if p >= |head| {
        var p' := p - |head|;
        assert c[p] == rest[p'];
        if p' > 0 {
          assert c[p - 1] == rest[p' - 1];
        } else {
          assert c[p - 1] == head[|head| - 1];
        }
        SerialisedAt(rest, k + 1, reqs[1..], p');
        var i := rest[p'].task - (k + 1);
        assert reqs[1..][i] == reqs[i + 1];
      } else if p == 0 {
        assert c[0] == head[0];
      }
    }
  }

  /** A block of task `k`'s calls, starting with the read of its actor, followed by a log
      serialised for the later tasks, is serialised. */
  lemma SerialisedCons(head: seq<Call>, rest: seq<Call>, k: nat, reqs: seq<Request>)
    requires reqs != [] && head != [] && head[0].op == GetDoc(reqs[0].actor)
    requires forall i :: 0 <= i < |head| ==> head[i].task == k
    requires Serialised(rest, k + 1, reqs[1..])
    ensures Serialised(head + rest, k, reqs)
  {
    InOrderCons(head, rest, k);
    InRangeCons(head, rest, k, |reqs[1..]|);
    BlocksCons(head, rest, k, reqs);
  }

  /** The calls the service sees while the queue drains are serialised: task `j`'s writes
      have completed before task `j + 1` issues its first read. */
  lemma {:induction false} CallsSerialised(docs: Docs, k: nat, reqs: seq<Request>, faults: nat -> Faults)
    ensures Serialised(QueueCalls(docs, k, reqs, faults), k, reqs)
    decreases |reqs|
  {
    if reqs != [] {
      var t := RunTask(docs, reqs[0], faults(k));
      CallsSerialised(t.docs, k + 1, reqs[1..], faults);
      TaggedSpec(k, t.calls);
      TaskStartsWithRead(docs, reqs[0], faults(k));
      QueueCallsUnfold(docs, k, reqs, faults);
      SerialisedCons(Tagged(k, t.calls), QueueCalls(t.docs, k + 1, reqs[1..], faults), k, reqs);
    }
  }

  /** If no task fails at its second write, the queue's final store is the plain toggles of
      the requests that succeeded, applied in call order: a failed task leaves no trace and
      no toggle is lost. */
  lemma {:induction false} NoHalfUpdateIsFoldOfSuccesses(docs: Docs, k: nat, reqs: seq<Request>, faults: nat -> Faults)
    requires NoHalfUpdate(docs, k, reqs, faults)
    ensures var run := RunAll(docs, k, reqs, faults);
      |run.outcomes| == |reqs| && run.docs == ApplyToggles(docs, Succeeded(reqs, run.outcomes))
    decreases |reqs|
  {
    EveryRequestSettles(docs, k, reqs, faults);
    if reqs != [] {
      var t := RunTask(docs, reqs[0], faults(k));
      var rest := RunAll(t.docs, k + 1, reqs[1..], faults);
      NoHalfUpdateIsFoldOfSuccesses(t.docs, k + 1, reqs[1..], faults);
      var outcomes := RunAll(docs, k, reqs, faults).outcomes;
      assert outcomes[0] == t.outcome && outcomes[1..] == rest.outcomes;
      if t.outcome.Ok? {
        assert Succeeded(reqs, outcomes) == [reqs[0]] + Succeeded(reqs[1..], rest.outcomes);
      } else {
        FailureBeforeSecondWrite(docs, reqs[0], faults(k));
        assert Succeeded(reqs, outcomes) == Succeeded(reqs[1..], rest.outcomes);
      }
    }
  }

  /** When every task succeeds, the final store is the toggles of all requests in call order. */
  lemma {:induction false} AllSucceededIsFoldOfAll(docs: Docs, k: nat, reqs: seq<Request>, faults: nat -> Faults)
    requires forall o :: o in RunAll(docs, k, reqs, faults).outcomes ==> o == Ok
    ensures RunAll(docs, k, reqs, faults).docs == ApplyToggles(docs, reqs)
    decreases |reqs|
  {
    if reqs != [] {
      var t := RunTask(docs, reqs[0], faults(k));
      var rest := RunAll(t.docs, k + 1, reqs[1..], faults);
      RunAllUnfold(docs, k, reqs, faults);
      assert t.outcome in RunAll(docs, k, reqs, faults).outcomes;
      assert forall o :: o in rest.outcomes ==> o in RunAll(docs, k, reqs, faults).outcomes;
      TaskSucceedsIff(docs, reqs[0], faults(k));
      AllSucceededIsFoldOfAll(t.docs, k + 1, reqs[1..], faults);
    }
  }

  // ---------------------------------------------------------------- scenarios

  /** A, following nobody, follows B, who has no followers, and then unfollows B. */
  lemma FollowThenUnfollow()
    ensures var docs := map["A" := UserDoc(Some([]), Some([]), map[]), "B" := UserDoc(Some([]), Some([]), map[])];
      var once := RunAll(docs, 0, [Request("A", "B")], _ => NoFaults);
      var twice := RunAll(docs, 0, [Request("A", "B"), Request("A", "B")], _ => NoFaults);
      once.outcomes == [Ok] && "A" in once.docs && "B" in once.docs && once.docs["A"].following == Some(["B"]) && once.docs["B"].follower == Some(["A"]) &&
      twice.outcomes == [Ok, Ok] && "A" in twice.docs && "B" in twice.docs && twice.docs["A"].following == Some([]) && twice.docs["B"].follower == Some([])
  {
    var docs := map["A" := UserDoc(Some([]), Some([]), map[]), "B" := UserDoc(Some([]), Some([]), map[])];
    var r := Request("A", "B");
    var mid := RunTask(docs, r, NoFaults).docs;
    assert Following(docs["A"]) == [] && Followers(docs["B"]) == [];
    assert ToggledFollowing(docs, r) == ["B"] && ToggledFollowers(docs, r) == ["A"];
    assert mid["A"].following == Some(["B"]) && mid["B"].follower == Some(["A"]);
    assert Following(mid["A"]) == ["B"] && Followers(mid["B"]) == ["A"];
    assert Remove(["B"], "B") == [] && Remove(["A"], "A") == [];
    assert ToggledFollowing(mid, r) == [] && ToggledFollowers(mid, r) == [];
    RunAllUnfold(docs, 0, [r, r], _ => NoFaults);
    RunAllUnfold(docs, 0, [r], _ => NoFaults);
    RunAllUnfold(mid, 1, [r], _ => NoFaults);
    assert [r, r][1..] == [r];
  }

  /** A request naming a missing user fails with NotFound and leaves the store alone; the
      request queued after it still runs and succeeds. */
  lemma MissingTargetDoesNotBlock()
    ensures var docs := map["A" := UserDoc(None, None, map[]), "B" := UserDoc(None, None, map[])];
      var run := RunAll(docs, 0, [Request("A", "missing"), Request("A", "B")], _ => NoFaults);
      run.outcomes == [Fail(NotFound), Ok] && "A" in run.docs && "B" in run.docs && run.docs["A"].following == Some(["B"]) && run.docs["B"].follower == Some(["A"])
  {
    var docs := map["A" := UserDoc(None, None, map[]), "B" := UserDoc(None, None, map[])];
    var bad, good := Request("A", "missing"), Request("A", "B");
    assert "missing" !in docs;
    assert RunTask(docs, bad, NoFaults).docs == docs;
    assert Following(docs["A"]) == [] && Followers(docs["B"]) == [];
    assert ToggledFollowing(docs, good) == ["B"] && ToggledFollowers(docs, good) == ["A"];
    RunAllUnfold(docs, 0, [bad, good], _ => NoFaults);
    assert [bad, good][1..] == [good];
    RunAllUnfold(docs, 1, [good], _ => NoFaults);
  }
}
