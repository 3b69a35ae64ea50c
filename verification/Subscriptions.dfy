/** State subscriptions and what a reconnect does to them. */
module Subscriptions {
  import opened Bytes
  import opened Messages
  import opened Replay
  import opened Router
  import opened Handlers
  import opened Requests

  /** How many handlers one subscription registers. */
  const HANDLERS: nat := 15

  lemma HandlerCount()
    ensures |STATE_IDS| == HANDLERS
  {}

  function StateHandlers(ids: seq<uint32>): seq<(uint32, Handler)> {
    seq(|ids|, i requires 0 <= i < |ids| => (ids[i], StateKeeper))
  }

  /** The subscriptions that a state message of a type reaches. */
  function Live(t: Table<Handler>, ty: uint32): nat {
    HowMany(t, ty, StateKeeper)
  }

  /** The same table but for some more state handlers of the state types. */
  ghost predicate MoreKeepers(before: Table<Handler>, after: Table<Handler>, more: nat) {
    && (forall ty :: Live(after, ty) == Live(before, ty) + if ty in STATE_IDS then more else 0)
    && (forall ty, h :: h != StateKeeper ==> HowMany(after, ty, h) == HowMany(before, ty, h))
  }

  lemma StateIdsDiffer()
    ensures forall i, j :: 0 <= i < j < |STATE_IDS| ==> STATE_IDS[i] != STATE_IDS[j]
  {
    assert forall i :: 0 <= i < |STATE_IDS| - 1 ==> STATE_IDS[i] < STATE_IDS[i + 1];
    forall i, j | 0 <= i < j < |STATE_IDS| ensures STATE_IDS[i] != STATE_IDS[j] {
      StepsAscend(STATE_IDS, i, j);
    }
  }

  lemma {:induction false} StepsAscend(s: seq<uint32>, i: nat, j: nat)
    requires i < j < |s| && forall k :: 0 <= k < |s| - 1 ==> s[k] < s[k + 1]
    ensures s[i] < s[j]
  {
    assert s[j - 1] < s[j - 1 + 1];
    if i < j - 1 { StepsAscend(s, i, j - 1); }
  }

  /** Handlers of one kind, one for each of some different types. */
  ghost predicate OneEach(regs: seq<Reg>, types: seq<uint32>, h: Handler) {
    && |regs| == |types| && (forall i :: 0 <= i < |types| ==> regs[i].t == types[i] && regs[i].h == h)
    && (forall i, j :: 0 <= i < j < |types| ==> types[i] != types[j])
  }

  lemma OneEachCount(regs: seq<Reg>, types: seq<uint32>, h: Handler, ty: uint32, other: Handler)
    requires OneEach(regs, types, h)
    ensures |OwnOfKind(regs, ty, other)| == if other == h && ty in types then 1 else 0
  {
    if other == h && ty in types {
      var i :| 0 <= i < |types| && types[i] == ty;
      assert regs[i] in regs;
      assert OwnOfKind(regs, ty, other) == {regs[i].id};
    } else {
      assert OwnOfKind(regs, ty, other) == {};
    }
  }

  lemma KeepersAdded(t: Table<Handler>, regs: seq<Reg>, before: Table<Handler>)
    requires Adds(t, regs, Bump(before, |regs|)) && OneEach(regs, STATE_IDS, StateKeeper)
    ensures MoreKeepers(before, t, 1)
  {
    forall ty, h ensures HowMany(t, ty, h) == HowMany(before, ty, h) + |OwnOfKind(regs, ty, h)| {
      KindSplits(t, regs, Bump(before, |regs|), ty, h);
      assert Bump(before, |regs|).Live(ty) == before.Live(ty);
    }
    forall ty, h ensures |OwnOfKind(regs, ty, h)| == if h == StateKeeper && ty in STATE_IDS then 1 else 0 {
      OneEachCount(regs, STATE_IDS, StateKeeper, ty, h);
    }
  }

  lemma KeepersAddUp(before: Table<Handler>, between: Table<Handler>, after: Table<Handler>, n: nat, more: nat)
    requires MoreKeepers(before, between, n) && MoreKeepers(between, after, more)
    ensures MoreKeepers(before, after, n + more)
  {
    forall ty ensures Live(after, ty) == Live(before, ty) + if ty in STATE_IDS then n + more else 0 {
      assert Live(between, ty) == Live(before, ty) + if ty in STATE_IDS then n else 0;
    }
  }

  lemma EveryStateReaches(before: Table<Handler>, after: Table<Handler>, more: nat)
    requires MoreKeepers(before, after, more)
    ensures forall m | Typed(m) && IsState(m) :: Live(after, TypeOf(m)) == Live(before, TypeOf(m)) + more
  {
    forall m | Typed(m) && IsState(m) ensures Live(after, TypeOf(m)) == Live(before, TypeOf(m)) + more {
      StatesAreSubscribed(m);
    }
  }

  lemma SameKeepers(before: Table<Handler>, after: Table<Handler>, n: nat)
    requires after.Same(Bump(before, n))
    ensures MoreKeepers(before, after, 0)
  {
    forall ty ensures after.Live(ty) == before.Live(ty) {
      assert Bump(before, n).Live(ty) == before.Live(ty);
    }
  }

  /** The part of the client that remembers the state handler for the next reconnect. */
  class StateSubscriber {
    const router: Router<Handler>
    var handlerSaved: bool

    constructor (router: Router<Handler>)
      ensures this.router == router && !handlerSaved
    {
      this.router, handlerSaved := router, false;
    }

    /** The table is in order, and n more subscriptions do not use up the ids. */
    ghost predicate RoomFor(n: nat)
      reads this, router
    {
      router.State().Issued() && Wired(router.State()) && router.nextID + n * HANDLERS < TWO_64
    }

    /**
     One handler for each state type. If the request cannot be sent they are all removed again, and the handler is
     not remembered; a subscription without a handler of the user's is not remembered either.
     */
    method SubscribeStates(hasHandler: bool, sendOk: bool) returns (regs: seq<Reg>)
      requires RoomFor(1)
      modifies this, router
      ensures handlerSaved == (hasHandler && sendOk)
      ensures router.State().Issued() && Wired(router.State())
      ensures router.nextID == old(router.nextID) + HANDLERS
      ensures MoreKeepers(old(router.State()), router.State(), if sendOk then 1 else 0)
      ensures forall m | Typed(m) && IsState(m) ::
                Live(router.State(), TypeOf(m)) == Live(old(router.State()), TypeOf(m)) + if sendOk then 1 else 0
      ensures sendOk ==> Adds(router.State(), regs, Bump(old(router.State()), HANDLERS))
      ensures !sendOk ==> router.State().Same(Bump(old(router.State()), HANDLERS))
    {
      HandlerCount();
      handlerSaved := hasHandler;
      var wanted := StateHandlers(STATE_IDS);
      forall x <- wanted ensures Fits(x.1, x.0) {}
      regs := RegisterAll(router, wanted);
      StateIdsDiffer();
      assert OneEach(regs, STATE_IDS, StateKeeper);
      if sendOk {
        KeepersAdded(router.State(), regs, old(router.State()));
      } else {
        Unsubscribe(regs, Bump(old(router.State()), HANDLERS));
        SameKeepers(old(router.State()), router.State(), HANDLERS);
      }
      EveryStateReaches(old(router.State()), router.State(), if sendOk then 1 else 0);
    }

    /** Removes the handlers of one subscription, and forgets the user's handler, whosever it is. */
    method Unsubscribe(regs: seq<Reg>, ghost others: Table<Handler>)
      requires Adds(router.State(), regs, others) && Wired(router.State())
      modifies this, router
      ensures !handlerSaved && router.State().Same(others)
      ensures router.State().Issued() && Wired(router.State())
    {
      handlerSaved := false;
      ghost var before := router.State();
      RemoveAll(router, regs);
      StillInOrder(before, regs, router.State());
    }

    /** What a reconnect does: it subscribes again if a handler was remembered, and removes nothing. */
    method Resubscribe(sendOk: bool)
      requires RoomFor(1)
      modifies this, router
      ensures handlerSaved == (old(handlerSaved) && sendOk)
      ensures router.State().Issued() && Wired(router.State())
      ensures router.nextID <= old(router.nextID) + HANDLERS
      ensures MoreKeepers(old(router.State()), router.State(), if old(handlerSaved) && sendOk then 1 else 0)
    {
      if handlerSaved {
        var _ := SubscribeStates(true, sendOk);
      }
    }

    /**
     A client that subscribed once has one more live subscription after every reconnect whose request could be
     sent, until the first whose request could not; from then on there are no more.
     */
    method Reconnects(sent: seq<bool>)
      requires RoomFor(|sent|)
      modifies this, router
      ensures MoreKeepers(old(router.State()), router.State(), if old(handlerSaved) then Leading(sent) else 0)
      ensures handlerSaved == (old(handlerSaved) && Leading(sent) == |sent|)
    {
      ghost var first := handlerSaved;
      for i := 0 to |sent|
        invariant router.State().Issued() && Wired(router.State())
        invariant router.nextID <= old(router.nextID) + i * HANDLERS
        invariant MoreKeepers(old(router.State()), router.State(), if first then Leading(sent[..i]) else 0)
        invariant handlerSaved == (first && Leading(sent[..i]) == i)
      {
        assert router.nextID + HANDLERS < TWO_64 by {
          assert (i + 1) * HANDLERS <= |sent| * HANDLERS;
        }
        LeadingStep(sent, i);
        label again:
        Resubscribe(sent[i]);
        ghost var more := if first && Leading(sent[..i]) == i && sent[i] then 1 else 0;
        KeepersAddUp(old(router.State()), old@again(router.State()), router.State(),
                     if first then Leading(sent[..i]) else 0, more);
      }
      assert sent[..|sent|] == sent;
    }
  }

  /** How many are true before the first that is not. */
  function Leading(bs: seq<bool>): (n: nat)
    ensures n <= |bs|
  {
    if bs == [] || !bs[0] then 0 else 1 + Leading(bs[1..])
  }

  lemma {:induction false} LeadingStep(bs: seq<bool>, i: nat)
    requires i < |bs|
    ensures Leading(bs[..i + 1]) == Leading(bs[..i]) + if Leading(bs[..i]) == i && bs[i] then 1 else 0
    decreases |bs|
  {
    if i > 0 && bs[0] {
      LeadingStep(bs[1..], i - 1);
      assert bs[..i + 1][1..] == bs[1..][..i] && bs[..i][1..] == bs[1..][..i - 1];
    }
  }

  lemma StillInOrder(before: Table<Handler>, regs: seq<Reg>, after: Table<Handler>)
    requires Owns(before, regs) && Wired(before) && after.Same(before.Without(Ids(regs)))
    ensures after.Issued() && Wired(after)
  {
    forall ty, id | id in after.Live(ty) ensures 1 <= id <= after.nextID && Fits(after.Live(ty)[id], ty) {
      assert after.Live(ty) == before.Without(Ids(regs)).Live(ty);
      assert id in before.Live(ty) && before.Live(ty)[id] == after.Live(ty)[id];
    }
  }
}
