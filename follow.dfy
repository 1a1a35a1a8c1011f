/** The follow/unfollow toggle of `followUser` and the module-level queue that runs those
    toggles one after another against the remote document service. */
module Follow {
  import opened Wrappers
  import opened Users
  import opened Seqs

  /** Why a remote call failed: the document does not exist, or the service failed. */
  datatype Error = NotFound | RemoteError

  /** How a queued task settled. */
  datatype Outcome = Ok | Fail(error: Error)

  /** "Toggle whether `actor` follows `target`". */
  datatype Request = Request(actor: Id, target: Id)

  /** Which of a task's four remote calls fail with a transient service error:
      the two `getDocument` reads and the two `updateDocument` writes, in call order. */
  datatype Faults = Faults(readActor: bool, readTarget: bool, writeFollowing: bool, writeFollower: bool)

  const NoFaults := Faults(false, false, false, false)

  /** A call made to the remote document service. */
  datatype Op = GetDoc(id: Id) | SetFollowing(id: Id, ids: seq<Id>) | SetFollower(id: Id, ids: seq<Id>)

  /** A call made on behalf of queued task number `task`. */
  datatype Call = Call(task: nat, op: Op)

  /** The user collection: document id to document. */
  type Docs = map<Id, UserDoc>

  // ---------------------------------------------------------------- list toggle

  /** `ids.filter(id => id !== x)`. */
  function Remove(s: seq<Id>, x: Id): seq<Id> {
    if s == [] then []
    else if s[0] == x then Remove(s[1..], x)
    else [s[0]] + Remove(s[1..], x)
  }

  /** One list's toggle in `followUser`: remove `x` when it is present, else append it. */
  function Toggle(s: seq<Id>, x: Id): seq<Id> {
    if x in s then Remove(s, x) else s + [x]
  }

  // ---------------------------------------------------------------- one task

  /** The actor's `following` list the task computes from a fresh read. */
  function ToggledFollowing(docs: Docs, r: Request): seq<Id>
    requires r.actor in docs
  {
    Toggle(Following(docs[r.actor]), r.target)
  }

  /** The target's `follower` list the task computes from a fresh read. */
  function ToggledFollowers(docs: Docs, r: Request): seq<Id>
    requires r.target in docs
  {
    Toggle(Followers(docs[r.target]), r.actor)
  }

  /** `updateDocument(id, { following: ids })`. */
  function WithFollowing(docs: Docs, id: Id, ids: seq<Id>): Docs
    requires id in docs
  {
    docs[id := docs[id].(following := Some(ids))]
  }

  /** `updateDocument(id, { follower: ids })`. */
  function WithFollower(docs: Docs, id: Id, ids: seq<Id>): Docs
    requires id in docs
  {
    docs[id := docs[id].(follower := Some(ids))]
  }

  /** Both writes of a toggle applied; a store without both documents is left alone. */
  function ToggleFollow(docs: Docs, r: Request): Docs {
    if r.actor in docs && r.target in docs then
      WithFollower(WithFollowing(docs, r.actor, ToggledFollowing(docs, r)), r.target, ToggledFollowers(docs, r))
    else docs
  }

  /** What one task leaves behind: the store, how it settled, and the calls it made. */
  datatype TaskResult = TaskResult(docs: Docs, outcome: Outcome, calls: seq<Op>)

  /** One queued `followUser` task: read the actor, read the target, write the actor's
      `following`, write the target's `follower`. The first call that fails ends the task;
      the writes are not atomic, so a failing second write leaves the first in place. */
  function RunTask(docs: Docs, r: Request, f: Faults): TaskResult {
    var readActor := [GetDoc(r.actor)];
    var readBoth := readActor + [GetDoc(r.target)];
    if f.readActor then TaskResult(docs, Fail(RemoteError), readActor)
    else if r.actor !in docs then TaskResult(docs, Fail(NotFound), readActor)
    else if f.readTarget then TaskResult(docs, Fail(RemoteError), readBoth)
    else if r.target !in docs then TaskResult(docs, Fail(NotFound), readBoth)
    else
      var following := ToggledFollowing(docs, r);
      var followers := ToggledFollowers(docs, r);
      var first := readBoth + [SetFollowing(r.actor, following)];
      var both := first + [SetFollower(r.target, followers)];
      if f.writeFollowing then TaskResult(docs, Fail(RemoteError), first)
      else if f.writeFollower then TaskResult(WithFollowing(docs, r.actor, following), Fail(RemoteError), both)
      else TaskResult(ToggleFollow(docs, r), Ok, both)
  }

  /** The task got past both reads and the first write, and the second write failed. */
  predicate HalfApplied(docs: Docs, r: Request, f: Faults) {
    !f.readActor && r.actor in docs && !f.readTarget && r.target in docs && !f.writeFollowing && f.writeFollower
  }

  // ---------------------------------------------------------------- the queue as a fold

  /** The calls of task `k`, tagged with its number. */
  function Tagged(k: nat, ops: seq<Op>): seq<Call>
    decreases |ops|
  {
    if ops == [] then [] else [Call(k, ops[0])] + Tagged(k, ops[1..])
  }

  lemma {:induction false} TaggedSnoc(k: nat, ops: seq<Op>, op: Op)
    ensures Tagged(k, ops + [op]) == Tagged(k, ops) + [Call(k, op)]
    decreases |ops|
  {
    if ops == [] {
      assert [] + [op] == [op];
    } else {
      assert (ops + [op])[1..] == ops[1..] + [op];
      TaggedSnoc(k, ops[1..], op);
    }
  }

  /** What draining a queue leaves behind: the store and how each task settled. */
  datatype RunResult = RunResult(docs: Docs, outcomes: seq<Outcome>)

  /** How task number `j` turns a store into a task result. */
  type Step = (Docs, Request, nat) -> TaskResult

  /** Tasks `k`, `k + 1`, ... run strictly one after another in queue order, each by `step`;
      each starts from the store its predecessor left, whether that one succeeded or failed. */
  function Fold(docs: Docs, k: nat, reqs: seq<Request>, step: Step): RunResult
    decreases |reqs|
  {
    if reqs == [] then RunResult(docs, [])
    else
      var t := step(docs, reqs[0], k);
      var rest := Fold(t.docs, k + 1, reqs[1..], step);
      RunResult(rest.docs, [t.outcome] + rest.outcomes)
  }

  /** The queue's step: task `j` is a `followUser` task whose calls fail as `faults(j)` says. */
  function TaskStep(faults: nat -> Faults): Step {
    (d: Docs, r: Request, j: nat) => RunTask(d, r, faults(j))
  }

  /** The queued `followUser` tasks `k`, `k + 1`, ... run in order. */
  function RunAll(docs: Docs, k: nat, reqs: seq<Request>, faults: nat -> Faults): RunResult {
    Fold(docs, k, reqs, TaskStep(faults))
  }

  /** The calls the service receives while those tasks run, each tagged with its task. */
  function QueueCalls(docs: Docs, k: nat, reqs: seq<Request>, faults: nat -> Faults): seq<Call>
    decreases |reqs|
  {
    if reqs == [] then []
    else
      var t := RunTask(docs, reqs[0], faults(k));
      Tagged(k, t.calls) + QueueCalls(t.docs, k + 1, reqs[1..], faults)
  }

  /** The first task of a run, then the rest. */
  lemma RunAllUnfold(docs: Docs, k: nat, reqs: seq<Request>, faults: nat -> Faults)
    requires reqs != []
    ensures var t := RunTask(docs, reqs[0], faults(k));
      var rest := RunAll(t.docs, k + 1, reqs[1..], faults);
      RunAll(docs, k, reqs, faults) == RunResult(rest.docs, [t.outcome] + rest.outcomes)
  {
    assert TaskStep(faults)(docs, reqs[0], k) == RunTask(docs, reqs[0], faults(k));
  }

  /** The first task's calls, then the rest's. */
  lemma QueueCallsUnfold(docs: Docs, k: nat, reqs: seq<Request>, faults: nat -> Faults)
    requires reqs != []
    ensures var t := RunTask(docs, reqs[0], faults(k));
      QueueCalls(docs, k, reqs, faults) == Tagged(k, t.calls) + QueueCalls(t.docs, k + 1, reqs[1..], faults)
  {
  }

  /** Toggles applied in order, with no failures. */
  function ApplyToggles(docs: Docs, reqs: seq<Request>): Docs
    decreases |reqs|
  {
    if reqs == [] then docs else ApplyToggles(ToggleFollow(docs, reqs[0]), reqs[1..])
  }

  /** The requests whose task settled `Ok`, in order. */
  function Succeeded(reqs: seq<Request>, outcomes: seq<Outcome>): seq<Request>
    requires |outcomes| == |reqs|
  {
    if reqs == [] then []
    else (if outcomes[0].Ok? then [reqs[0]] else []) + Succeeded(reqs[1..], outcomes[1..])
  }

  /** No task of the run fails at its second write. */
  predicate NoHalfUpdate(docs: Docs, k: nat, reqs: seq<Request>, faults: nat -> Faults)
    decreases |reqs|
  {
    reqs != [] ==>
      !HalfApplied(docs, reqs[0], faults(k)) &&
      NoHalfUpdate(RunTask(docs, reqs[0], faults(k)).docs, k + 1, reqs[1..], faults)
  }

  // ---------------------------------------------------------------- the remote service

  /** The user collection of the remote document service, with the log of calls made to it.
      Each call's transient failure is decided by the caller through `fail`. */
  class UserStore {
    var docs: Docs
    var log: seq<Call>

    constructor (initial: Docs)
      ensures docs == initial && log == []
    {
      docs := initial;
      log := [];
    }

    /** `databases.getDocument(userCollectionId, id)`. */
    method GetDocument(task: nat, id: Id, fail: bool) returns (r: Result<UserDoc, Error>)
      modifies this`log
      ensures log == old(log) + [Call(task, GetDoc(id))]
      ensures r == if fail then Failure(RemoteError) else if id in docs then Success(docs[id]) else Failure(NotFound)
    {
      log := log + [Call(task, GetDoc(id))];
      if fail {
        r := Failure(RemoteError);
      } else if id in docs {
        r := Success(docs[id]);
      } else {
        r := Failure(NotFound);
      }
    }

    /** `databases.updateDocument(userCollectionId, id, { following: ids })`. */
    method UpdateFollowing(task: nat, id: Id, ids: seq<Id>, fail: bool) returns (r: Outcome)
      modifies this
      ensures log == old(log) + [Call(task, SetFollowing(id, ids))]
      ensures r == if fail then Fail(RemoteError) else if id in old(docs) then Ok else Fail(NotFound)
      ensures docs == if r.Ok? then WithFollowing(old(docs), id, ids) else old(docs)
    {
      log := log + [Call(task, SetFollowing(id, ids))];
      if fail {
        r := Fail(RemoteError);
      } else if id in docs {
        docs := WithFollowing(docs, id, ids);
        r := Ok;
      } else {
        r := Fail(NotFound);
      }
    }

    /** `databases.updateDocument(userCollectionId, id, { follower: ids })`. */
    method UpdateFollower(task: nat, id: Id, ids: seq<Id>, fail: bool) returns (r: Outcome)
      modifies this
      ensures log == old(log) + [Call(task, SetFollower(id, ids))]
      ensures r == if fail then Fail(RemoteError) else if id in old(docs) then Ok else Fail(NotFound)
      ensures docs == if r.Ok? then WithFollower(old(docs), id, ids) else old(docs)
    {
      log := log + [Call(task, SetFollower(id, ids))];
      if fail {
        r := Fail(RemoteError);
      } else if id in docs {
        docs := WithFollower(docs, id, ids);
        r := Ok;
      } else {
        r := Fail(NotFound);
      }
    }
  }

  /** The body of the task `followUser` chains onto the queue, run as task number `k`. */
  method FollowTask(store: UserStore, k: nat, r: Request, f: Faults) returns (outcome: Outcome)
    modifies store
    ensures var t := RunTask(old(store.docs), r, f);
      store.docs == t.docs && outcome == t.outcome && store.log == old(store.log) + Tagged(k, t.calls)
  {
    ghost var docs0, log0 := store.docs, store.log;
    ghost var t := RunTask(docs0, r, f);
    ghost var done: seq<Op> := [];
    // Fresh reads: they see whatever the previous task left.
    var currentUser := store.GetDocument(k, r.actor, f.readActor);
    TaggedSnoc(k, done, GetDoc(r.actor));
    done := done + [GetDoc(r.actor)];
    assert store.log == log0 + Tagged(k, done);
    if currentUser.Failure? {
      assert t == TaskResult(docs0, Fail(currentUser.error), done);
      return Fail(currentUser.error);
    }
    var targetUser := store.GetDocument(k, r.target, f.readTarget);
    TaggedSnoc(k, done, GetDoc(r.target));
    done := done + [GetDoc(r.target)];
    assert store.log == log0 + Tagged(k, done);
    if targetUser.Failure? {
      assert t == TaskResult(docs0, Fail(targetUser.error), done);
      return Fail(targetUser.error);
    }
    var following := Following(currentUser.value);
    var followers := Followers(targetUser.value);
    // The two toggle blocks: filter the id out when present, else push it.
    following := Toggle(following, r.target);
    followers := Toggle(followers, r.actor);
    assert r.actor in docs0 && r.target in docs0;
    assert following == ToggledFollowing(docs0, r) && followers == ToggledFollowers(docs0, r);
    var updatedCurrentUser := store.UpdateFollowing(k, r.actor, following, f.writeFollowing);
    TaggedSnoc(k, done, SetFollowing(r.actor, following));
    done := done + [SetFollowing(r.actor, following)];
    assert store.log == log0 + Tagged(k, done);
    if updatedCurrentUser.Fail? {
      assert t == TaskResult(docs0, Fail(RemoteError), done);
      return updatedCurrentUser;
    }
    var updatedTargetUser := store.UpdateFollower(k, r.target, followers, f.writeFollower);
    TaggedSnoc(k, done, SetFollower(r.target, followers));
    done := done + [SetFollower(r.target, followers)];
    assert store.log == log0 + Tagged(k, done);
    if updatedTargetUser.Fail? {
      assert t == TaskResult(WithFollowing(docs0, r.actor, following), Fail(RemoteError), done);
      return updatedTargetUser;
    }
    assert t == TaskResult(ToggleFollow(docs0, r), Ok, done);
    outcome := Ok;
  }

  /** The module-level `followQueue`: requests wait in `pending` in call order; `settled[j]`
      is how the request with handle `j` ended. */
  class FollowQueue {
    var pending: seq<Request>
    var settled: seq<Outcome>

    constructor ()
      ensures pending == [] && settled == []
    {
      pending := [];
      settled := [];
    }

    /** `followUser(actor, target)`: chain the request after every earlier one and return its
        handle, without running anything yet. */
    method Enqueue(r: Request) returns (handle: nat)
      modifies this
      ensures pending == old(pending) + [r] && settled == old(settled)
      ensures handle == |settled| + |old(pending)|
    {
      handle := |settled| + |pending|;
      pending := pending + [r];
    }

    /** Run the oldest queued task to completion. Its failure is recorded and swallowed by
        the chain, so the task after it still runs. */
    method RunNext(store: UserStore, faults: nat -> Faults)
      modifies this, store
      ensures old(pending) == [] ==> pending == [] && settled == old(settled) && store.docs == old(store.docs) && store.log == old(store.log)
      ensures old(pending) != [] ==>
        var t := RunTask(old(store.docs), old(pending)[0], faults(|old(settled)|));
        pending == old(pending)[1..] && settled == old(settled) + [t.outcome] &&
        store.docs == t.docs && store.log == old(store.log) + Tagged(|old(settled)|, t.calls)
    {
      if pending != [] {
        var r := pending[0];
        pending := pending[1..];
        var outcome := FollowTask(store, |settled|, r, faults(|settled|));
        settled := settled + [outcome];
      }
    }

    /** Let every queued task settle, in order. */
    method Drain(store: UserStore, faults: nat -> Faults)
      modifies this, store
      ensures var run := RunAll(old(store.docs), |old(settled)|, old(pending), faults);
        pending == [] && settled == old(settled) + run.outcomes && store.docs == run.docs
      ensures store.log == old(store.log) + QueueCalls(old(store.docs), |old(settled)|, old(pending), faults)
    {
      ghost var whole := RunAll(store.docs, |settled|, pending, faults);
      ghost var wholeCalls := QueueCalls(store.docs, |settled|, pending, faults);
      ghost var settledBefore, logBefore := settled, store.log;
      while pending != []
        invariant RunAll(store.docs, |settled|, pending, faults).docs == whole.docs
        invariant settled + RunAll(store.docs, |settled|, pending, faults).outcomes == settledBefore + whole.outcomes
        invariant store.log + QueueCalls(store.docs, |settled|, pending, faults) == logBefore + wholeCalls
        decreases |pending|
      {
        ghost var docs0, settled0, pending0, log0 := store.docs, settled, pending, store.log;
        ghost var t := RunTask(docs0, pending0[0], faults(|settled0|));
        ghost var rest := RunAll(t.docs, |settled0| + 1, pending0[1..], faults);
        RunAllUnfold(docs0, |settled0|, pending0, faults);
        QueueCallsUnfold(docs0, |settled0|, pending0, faults);
        RunNext(store, faults);
        assert settled + rest.outcomes == settled0 + ([t.outcome] + rest.outcomes);
        ghost var restCalls := QueueCalls(t.docs, |settled0| + 1, pending0[1..], faults);
        assert store.log + restCalls == log0 + (Tagged(|settled0|, t.calls) + restCalls);
      }
    }
  }
}
