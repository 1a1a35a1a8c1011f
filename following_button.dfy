/** The optimistic follow flag of the `FollowingButton` component. */
module FollowButton {
  import opened Wrappers
  import opened Users
  import opened Follow

  /** The flag the seeding effect computes: `(currentUser.following || []).includes(target)`. */
  function SeededFlag(user: CurrentUser, target: Id): bool {
    target in Following(user.doc)
  }

  /** What a button has shown and emitted: its flag, the values it passed to `onFollowChange`,
      and the follow requests it queued. */
  datatype View = View(isFollowing: bool, notified: seq<bool>, issued: seq<Request>)

  /** One click: with no current user nothing happens; otherwise the flag flips, the new
      value goes to `onFollowChange` when there is one, and exactly one request is queued.
      Nothing here waits for, or looks at, how the request ends. */
  function Click(v: View, user: Option<CurrentUser>, target: Id, hasOnFollowChange: bool): View {
    if user.None? then v
    else
      var newStatus := !v.isFollowing;
      View(newStatus,
           if hasOnFollowChange then v.notified + [newStatus] else v.notified,
           v.issued + [Request(user.value.id, target)])
  }

  /** `n` clicks in a row, with no re-seeding in between. */
  function Clicks(v: View, user: Option<CurrentUser>, target: Id, hasOnFollowChange: bool, n: nat): View
    decreases n
  {
    if n == 0 then v else Click(Clicks(v, user, target, hasOnFollowChange, n - 1), user, target, hasOnFollowChange)
  }

  /** A click with a current user flips the flag, keeps every earlier request and
      notification, queues one request for the pair, and hands the new flag to
      `onFollowChange` when there is one and notifies nothing otherwise; without a current
      user it changes nothing and queues nothing. */
  lemma ClickSpec(v: View, user: Option<CurrentUser>, target: Id, hasOnFollowChange: bool)
    ensures user.None? ==> Click(v, user, target, hasOnFollowChange) == v
    ensures user.Some? ==>
      var w := Click(v, user, target, hasOnFollowChange);
      w.isFollowing == !v.isFollowing &&
      |w.issued| == |v.issued| + 1 && w.issued[..|v.issued|] == v.issued &&
      w.issued[|v.issued|] == Request(user.value.id, target) &&
      (hasOnFollowChange ==>
        |w.notified| == |v.notified| + 1 && w.notified[..|v.notified|] == v.notified &&
        w.notified[|v.notified|] == w.isFollowing) &&
      (!hasOnFollowChange ==> w.notified == v.notified)
  {
    var w := Click(v, user, target, hasOnFollowChange);
    if user.Some? {
      assert w.issued[..|v.issued|] == v.issued;
      if hasOnFollowChange {
        assert w.notified[..|v.notified|] == v.notified;
      }
    }
  }

  /** After `n` clicks the flag is the starting flag flipped when `n` is odd, the button has
      queued exactly `n` more requests after the earlier ones, all of them for the same pair,
      and, when it has an observer, has notified it `n` more times after the earlier
      notifications, the `i`-th time with the flag flipped `i + 1` times, so the last time
      with the flag it now shows; without an observer it notifies nothing. */
  lemma {:induction false} ClicksSpec(v: View, user: Option<CurrentUser>, target: Id, hasOnFollowChange: bool, n: nat)
    ensures user.None? ==> Clicks(v, user, target, hasOnFollowChange, n) == v
    ensures user.Some? ==>
      var w := Clicks(v, user, target, hasOnFollowChange, n);
      w.isFollowing == (v.isFollowing != (n % 2 == 1)) &&
      |w.issued| == |v.issued| + n && w.issued[..|v.issued|] == v.issued &&
      (forall i :: |v.issued| <= i < |w.issued| ==> w.issued[i] == Request(user.value.id, target)) &&
      (hasOnFollowChange ==>
        |w.notified| == |v.notified| + n && w.notified[..|v.notified|] == v.notified &&
        (forall i :: 0 <= i < n ==> w.notified[|v.notified| + i] == (v.isFollowing != (i % 2 == 0))) &&
        (n > 0 ==> w.notified[|w.notified| - 1] == w.isFollowing)) &&
      (!hasOnFollowChange ==> w.notified == v.notified)
    decreases n
  {
    if n > 0 {
      ClicksSpec(v, user, target, hasOnFollowChange, n - 1);
      var u := Clicks(v, user, target, hasOnFollowChange, n - 1);
      ClickSpec(u, user, target, hasOnFollowChange);
      if user.Some? {
        var w := Click(u, user, target, hasOnFollowChange);
        assert w.issued == u.issued + [Request(user.value.id, target)];
        assert w.issued[..|v.issued|] == u.issued[..|v.issued|];
        if hasOnFollowChange {
          assert w.notified == u.notified + [w.isFollowing];
          assert w.notified[..|v.notified|] == u.notified[..|v.notified|];
          forall i | 0 <= i < n ensures w.notified[|v.notified| + i] == (v.isFollowing != (i % 2 == 0)) {
            if i < n - 1 {
              assert w.notified[|v.notified| + i] == u.notified[|v.notified| + i];
            }
          }
        }
      }
    }
  }

  /** One mounted `FollowingButton`. `isFollowing` is its `useState` flag; `notified` records
      the calls of `onFollowChange`; `issued` is the ghost record of the requests it queued. */
  class Button {
    var currentUser: Option<CurrentUser>
    var userIdToFollow: Id
    var hasOnFollowChange: bool
    var isFollowing: bool
    var notified: seq<bool>
    ghost var issued: seq<Request>
    const queue: FollowQueue

    ghost function Shown(): View
      reads this
    {
      View(isFollowing, notified, issued)
    }

    /** Mount: the flag starts `false` and the effect seeds it at once when a current user
        is known. */
    constructor (queue: FollowQueue, user: Option<CurrentUser>, target: Id, hasOnFollowChange: bool)
      ensures this.queue == queue && currentUser == user && userIdToFollow == target
      ensures this.hasOnFollowChange == hasOnFollowChange
      ensures isFollowing == (user.Some? && SeededFlag(user.value, target))
      ensures notified == [] && issued == []
    {
      this.queue := queue;
      currentUser := user;
      userIdToFollow := target;
      this.hasOnFollowChange := hasOnFollowChange;
      notified := [];
      issued := [];
      isFollowing := false;
      if user.Some? {
        isFollowing := SeededFlag(user.value, target);
      }
    }

    /** A render in which `currentUser` or `userIdToFollow` changed: the effect re-seeds the
        flag from the current user's `following` list, or leaves it alone when there is no
        current user. */
    method Rerender(user: Option<CurrentUser>, target: Id)
      modifies this`currentUser, this`userIdToFollow, this`isFollowing
      ensures currentUser == user && userIdToFollow == target
      ensures isFollowing == if user.Some? then SeededFlag(user.value, target) else old(isFollowing)
    {
      currentUser := user;
      userIdToFollow := target;
      if user.Some? {
        isFollowing := SeededFlag(user.value, target);
      }
    }

    /** `handleFollowUser`: flip, notify, then queue the request without waiting for it. */
    method HandleClick()
      modifies this`isFollowing, this`notified, this`issued, queue
      ensures Shown() == Click(old(Shown()), currentUser, userIdToFollow, hasOnFollowChange)
      ensures queue.settled == old(queue.settled)
      ensures queue.pending == if currentUser.Some? then old(queue.pending) + [Request(currentUser.value.id, userIdToFollow)] else old(queue.pending)
    {
      if currentUser.None? {
        return;
      }
      var newStatus := !isFollowing;
      isFollowing := newStatus;
      if hasOnFollowChange {
        notified := notified + [newStatus];
      }
      var request := Request(currentUser.value.id, userIdToFollow);
      var _ := queue.Enqueue(request);
      issued := issued + [request];
    }
  }

  /** A click followed by the queue draining: the button's state is the `Click` step, so the
      flag keeps its optimistic value whatever the requests' outcomes, while the store and
      the call log end as the queued tasks, run in order, leave them. */
  method ClickAndSettle(b: Button, store: UserStore, faults: nat -> Faults)
    modifies b`isFollowing, b`notified, b`issued, b.queue, store
    ensures b.Shown() == Click(old(b.Shown()), b.currentUser, b.userIdToFollow, b.hasOnFollowChange)
    ensures b.isFollowing == (old(b.isFollowing) != b.currentUser.Some?)
    ensures var queued := if b.currentUser.Some? then old(b.queue.pending) + [Request(b.currentUser.value.id, b.userIdToFollow)]
                          else old(b.queue.pending);
      b.queue.pending == [] &&
      b.queue.settled == old(b.queue.settled) + RunAll(old(store.docs), |old(b.queue.settled)|, queued, faults).outcomes &&
      store.docs == RunAll(old(store.docs), |old(b.queue.settled)|, queued, faults).docs &&
      store.log == old(store.log) + QueueCalls(old(store.docs), |old(b.queue.settled)|, queued, faults)
  {
    b.HandleClick();
    b.queue.Drain(store, faults);
  }
}
