/**
 Calls that register handlers, send a request and wait. What the rest of the program does meanwhile is a
 list of events: messages dispatched by the read loop, registrations and removals by anybody else, and the
 registry being cleared by a reconnect loop.
 */
module Requests {
  import opened Bytes
  import opened Messages
  import opened Replay
  import opened Registry
  import opened Router
  import opened Handlers

  /** What the waiting select does: take what arrived, give up on the timer, or see the connection closed. */
  datatype Wake = Arrived | TimerFired | ConnectionClosed

  /** The messages of the given types, in the order of their dispatch. */
  function Received(events: seq<Event>, types: set<uint32>): (ms: seq<Msg>)
    ensures forall m <- ms :: TypeOf(m) in types && Deliver(m) in events
  {
    if events == [] then []
    else
      var n := |events| - 1;
      Received(events[..n], types) +
      if events[n].Deliver? && TypeOf(events[n].m) in types then [events[n].m] else []
  }

  lemma ReceivedStep(events: seq<Event>, e: Event, types: set<uint32>)
    ensures Received(events + [e], types) == Received(events, types) + Received([e], types)
    ensures Received([e], types) == if e.Deliver? && TypeOf(e.m) in types then [e.m] else []
  {
    assert (events + [e])[..|events|] == events && [e][..0] == [];
  }

  lemma {:induction false} ReceivedAppend(first: seq<Event>, last: seq<Event>, types: set<uint32>)
    ensures Received(first + last, types) == Received(first, types) + Received(last, types)
  {
    if last == [] {
      assert first + last == first;
    } else {
      var before, e := last[..|last| - 1], last[|last| - 1];
      assert first + last == (first + before) + [e];
      ReceivedStep(first + before, e, types);
      ReceivedStep(before, e, types);
      assert last == before + [e];
      ReceivedAppend(first, before, types);
      Associate(Received(first, types), Received(before, types), Received([e], types));
    }
  }

  /** How many handlers the others register. */
  function Joins(events: seq<Event>): nat {
    if events == [] then 0
    else
      var n := |events| - 1;
      Joins(events[..n]) + if events[n].Other? && events[n].a.Register? then 1 else 0
  }

  lemma {:induction false} JoinsAppend(first: seq<Event>, last: seq<Event>)
    ensures Joins(first + last) == Joins(first) + Joins(last)
  {
    if last == [] {
      assert first + last == first;
    } else {
      var before := last[..|last| - 1];
      assert (first + last)[..|first + last| - 1] == first + before;
      JoinsAppend(first, before);
    }
  }

  // ----- Our own handlers -----

  datatype Reg = Reg(t: uint32, id: nat, h: Handler)

  function Ids(regs: seq<Reg>): set<nat> {
    set r | r in regs :: r.id
  }

  function Types(regs: seq<Reg>): set<uint32> {
    set r | r in regs :: r.t
  }

  /** The types for which a handler of ours puts messages into the registry. */
  function Listed(regs: seq<Reg>): set<uint32> {
    set r | r in regs && r.h == EntityLister :: r.t
  }

  /** One handler for each type. */
  predicate Distinct(regs: seq<Reg>) {
    forall i, j :: 0 <= i < j < |regs| ==> regs[i].t != regs[j].t && regs[i].id != regs[j].id
  }

  /** The handlers of regs are in the table, each under its own type and id only. */
  ghost predicate Owns(t: Table<Handler>, regs: seq<Reg>) {
    && t.Issued()
    && (forall r <- regs :: r.id in t.Live(r.t) && t.Live(r.t)[r.id] == r.h)
    && (forall ty, id :: id in t.Live(ty) && id in Ids(regs) ==> Reg(ty, id, t.Live(ty)[id]) in regs)
  }

  /** Our handlers are in the table, and without them it is the other one. */
  ghost predicate Adds(t: Table<Handler>, regs: seq<Reg>, others: Table<Handler>) {
    Owns(t, regs) && t.Without(Ids(regs)).Same(others)
  }

  /** The table with the ids of n registrations used up and none of them there. */
  function Bump(t: Table<Handler>, n: nat): Table<Handler> {
    Table(t.handlers, t.nextID + n)
  }

  lemma WithoutNone(t: Table<Handler>)
    ensures t.Without({}).Same(t)
  {
    forall ty ensures t.Without({}).Live(ty) == t.Live(ty) {
      assert t.Live(ty) - {} == t.Live(ty);
    }
  }

  // ----- Registering -----

  lemma OwnsRegister(t: Table<Handler>, regs: seq<Reg>, ty: uint32, h: Handler)
    requires Owns(t, regs) && t.nextID + 1 < TWO_64
    ensures Owns(t.On(ty, h), regs + [Reg(ty, t.nextID + 1, h)])
    ensures forall r <- regs :: r.id <= t.nextID
  {
    var u, more := t.On(ty, h), regs + [Reg(ty, t.nextID + 1, h)];
    ActionKeepsIssued(t, Register(ty, h));
    forall ty', id | id in u.Live(ty') && id in Ids(more) ensures Reg(ty', id, u.Live(ty')[id]) in more {
      if id != t.nextID + 1 {
        assert id in t.Live(ty') && id in Ids(regs);
      } else {
        assert id !in t.Live(ty');
      }
    }
  }

  lemma WithoutRegister(t: Table<Handler>, others: Table<Handler>, ids: set<nat>, ty: uint32, h: Handler)
    requires t.Without(ids).Same(others) && t.nextID + 1 < TWO_64 && t.Issued()
    ensures t.On(ty, h).Without(ids + {t.nextID + 1}).Same(Bump(others, 1))
  {
    var u := t.On(ty, h).Without(ids + {t.nextID + 1});
    forall ty' ensures u.Live(ty') == others.Live(ty') {
      assert t.Without(ids).Live(ty') == others.Live(ty');
      assert t.nextID + 1 !in t.Live(ty');
      assert t.Live(ty') - (ids + {t.nextID + 1}) == t.Live(ty') - ids;
      assert t.Live(ty)[t.nextID + 1 := h] - (ids + {t.nextID + 1}) == t.Live(ty) - ids;
    }
  }

  lemma RegisterOne(t: Table<Handler>, others: Table<Handler>, regs: seq<Reg>, ty: uint32, h: Handler)
    requires Adds(t, regs, others) && t.nextID + 1 < TWO_64
    ensures Adds(t.On(ty, h), regs + [Reg(ty, t.NextId(), h)], Bump(others, 1))
  {
    OwnsRegister(t, regs, ty, h);
    WithoutRegister(t, others, Ids(regs), ty, h);
    assert Ids(regs + [Reg(ty, t.nextID + 1, h)]) == Ids(regs) + {t.nextID + 1};
  }

  /** Registers one handler for each of the wanted types, in order. */
  method RegisterAll(router: Router<Handler>, wanted: seq<(uint32, Handler)>) returns (regs: seq<Reg>)
    requires router.State().Issued() && router.nextID + |wanted| < TWO_64
    requires Wired(router.State()) && forall x <- wanted :: Fits(x.1, x.0)
    modifies router
    ensures |regs| == |wanted|
    ensures forall i :: 0 <= i < |wanted| ==> regs[i] == Reg(wanted[i].0, old(router.nextID) + 1 + i, wanted[i].1)
    ensures Adds(router.State(), regs, Bump(old(router.State()), |wanted|)) && Wired(router.State())
    ensures router.nextID == old(router.nextID) + |wanted|
  {
    regs := [];
    WithoutNone(router.State());
    for i := 0 to |wanted|
      invariant |regs| == i
      invariant forall j :: 0 <= j < i ==> regs[j] == Reg(wanted[j].0, old(router.nextID) + 1 + j, wanted[j].1)
      invariant Adds(router.State(), regs, Bump(old(router.State()), i)) && Wired(router.State())
      invariant router.nextID == old(router.nextID) + i
    {
      var (ty, h) := wanted[i];
      assert (ty, h) in wanted;
      RegisterOne(router.State(), Bump(old(router.State()), i), regs, ty, h);
      ActionKeepsWired(router.State(), Register(ty, h));
      var id := router.On(ty, h);
      regs := regs + [Reg(ty, id, h)];
    }
  }

  // ----- Removing -----

  lemma WithoutRemove(t: Table<Handler>, regs: seq<Reg>, k: nat)
    requires k < |regs|
    requires forall ty, id :: id in t.Live(ty) && id in Ids(regs) ==> Reg(ty, id, t.Live(ty)[id]) in regs
    ensures var u := t.Remove(regs[k].t, regs[k].id);
            forall ty, id :: id in u.Live(ty) <==> id in t.Live(ty) && (ty != regs[k].t || id != regs[k].id)
  {}

  ghost predicate Removed(regs: seq<Reg>, ty: uint32, id: nat) {
    exists r <- regs :: r.t == ty && r.id == id
  }

  lemma RemovedStep(regs: seq<Reg>, r: Reg, ty: uint32, id: nat)
    ensures Removed(regs + [r], ty, id) <==> Removed(regs, ty, id) || (r.t == ty && r.id == id)
  {
    if Removed(regs, ty, id) {
      var q :| q in regs && q.t == ty && q.id == id;
      assert q in regs + [r];
    }
    if r.t == ty && r.id == id {
      assert r in regs + [r];
    }
  }

  /** Runs the removal functions. */
  method RemoveAll(router: Router<Handler>, regs: seq<Reg>)
    requires Owns(router.State(), regs)
    modifies router
    ensures router.State().Same(old(router.State()).Without(Ids(regs)))
  {
    ghost var before := router.State();
    for i := 0 to |regs|
      invariant router.nextID == before.nextID
      invariant forall ty, id :: id in router.State().Live(ty) <==> id in before.Live(ty) && !Removed(regs[..i], ty, id)
      invariant forall ty, id :: id in router.State().Live(ty) ==> router.State().Live(ty)[id] == before.Live(ty)[id]
    {
      WithoutRemove(router.State(), regs, i);
      router.Remove(regs[i].t, regs[i].id);
      assert regs[..i + 1] == regs[..i] + [regs[i]];
      forall ty, id { RemovedStep(regs[..i], regs[i], ty, id); }
    }
    assert regs[..|regs|] == regs;
    OnlyOursRemoved(before, router.State(), regs);
  }

  lemma OnlyOursRemoved(before: Table<Handler>, after: Table<Handler>, regs: seq<Reg>)
    requires Owns(before, regs) && after.nextID == before.nextID
    requires forall ty, id :: id in after.Live(ty) <==> id in before.Live(ty) && !Removed(regs, ty, id)
    requires forall ty, id :: id in after.Live(ty) ==> after.Live(ty)[id] == before.Live(ty)[id]
    ensures after.Same(before.Without(Ids(regs)))
  {
    forall ty ensures after.Live(ty) == before.Without(Ids(regs)).Live(ty) {
      forall id ensures id in after.Live(ty) <==> id in before.Live(ty) && id !in Ids(regs) {
        if id in before.Live(ty) && id in Ids(regs) {
          var r := Reg(ty, id, before.Live(ty)[id]);
          assert r in regs && r.t == ty && r.id == id;
        }
      }
    }
  }

  // ----- What others do while our handlers are there -----

  /** An action of others does the same to the table with our handlers and without. */
  lemma ActionWithoutCommutes(t: Table<Handler>, a: Action<Handler>, ids: set<nat>)
    requires (a.Register? ==> t.nextID + 1 < TWO_64) && forall id <- ids :: id <= t.nextID
    ensures Apply(t, a).Without(ids) == Apply(t.Without(ids), a)
  {
    match a
    case Register(ty, h) =>
      assert t.NextId() !in ids;
      assert t.Live(ty)[t.NextId() := h] - ids == (t.Live(ty) - ids)[t.NextId() := h];
      assert t.Without(ids).Live(ty) == t.Live(ty) - ids;
      assert Apply(t, a).Without(ids).handlers == Apply(t.Without(ids), a).handlers;
    case Unregister(ty, id) =>
      if ty in t.handlers {
        assert (t.handlers[ty] - {id}) - ids == (t.handlers[ty] - ids) - {id};
        assert Apply(t, a).Without(ids).handlers == Apply(t.Without(ids), a).handlers;
      }
  }

  lemma SameStaysSame(t: Table<Handler>, u: Table<Handler>, a: Action<Handler>)
    requires t.Same(u)
    ensures Apply(t, a).Same(Apply(u, a))
  {
    forall ty ensures Apply(t, a).Live(ty) == Apply(u, a).Live(ty) {
      assert t.Live(ty) == u.Live(ty) && t.Live(a.t) == u.Live(a.t);
      var none: map<nat, Handler> := map[];
      if a.Unregister? { assert none - {a.id} == none; }
    }
  }

  lemma OwnsAction(t: Table<Handler>, regs: seq<Reg>, a: Action<Handler>)
    requires Owns(t, regs) && (a.Register? ==> t.nextID + 1 < TWO_64) && (a.Unregister? ==> a.id !in Ids(regs))
    ensures Owns(Apply(t, a), regs) && forall id <- Ids(regs) :: id <= t.nextID
  {
    var u := Apply(t, a);
    ActionKeepsIssued(t, a);
    forall r <- regs ensures r.id <= t.nextID {
      assert r.id in t.Live(r.t);
    }
    forall ty, id | id in u.Live(ty) && id in Ids(regs) ensures Reg(ty, id, u.Live(ty)[id]) in regs {
      assert id <= t.nextID && id in t.Live(ty);
    }
    forall r <- regs ensures r.id in u.Live(r.t) && u.Live(r.t)[r.id] == r.h {
      assert r.id in t.Live(r.t) && r.id in Ids(regs);
    }
  }

  lemma AddsAction(t: Table<Handler>, regs: seq<Reg>, others: Table<Handler>, a: Action<Handler>)
    requires Adds(t, regs, others)
    requires (a.Register? ==> t.nextID + 1 < TWO_64) && (a.Unregister? ==> a.id !in Ids(regs))
    ensures Adds(Apply(t, a), regs, Apply(others, a))
  {
    OwnsAction(t, regs, a);
    ActionWithoutCommutes(t, a, Ids(regs));
    SameStaysSame(t.Without(Ids(regs)), others, a);
  }

  // ----- What a dispatch does while our handlers are there -----

  function OwnIds(regs: seq<Reg>, ty: uint32): set<nat> {
    set r | r in regs && r.t == ty :: r.id
  }

  lemma OneOwnId(regs: seq<Reg>, ty: uint32)
    requires Distinct(regs)
    ensures |OwnIds(regs, ty)| == if ty in Types(regs) then 1 else 0
  {
    if ty in Types(regs) {
      var r :| r in regs && r.t == ty;
      assert OwnIds(regs, ty) == {r.id};
    } else {
      assert OwnIds(regs, ty) == {};
    }
  }

  /** A dispatch calls as many handlers of ours as we registered for the type: one or none. */
  lemma OwnCalls(t: Table<Handler>, regs: seq<Reg>, ty: uint32, called: seq<(nat, Handler)>)
    requires Owns(t, regs) && Distinct(regs) && CallsAll(called, t.Live(ty))
    ensures CountIn(called, Ids(regs)) == if ty in Types(regs) then 1 else 0
  {
    CallsOf(called, t.Live(ty), Ids(regs));
    forall id ensures id in t.Live(ty).Keys * Ids(regs) <==> id in OwnIds(regs, ty) {
      if id in t.Live(ty) && id in Ids(regs) {
        assert Reg(ty, id, t.Live(ty)[id]) in regs;
      }
    }
    assert t.Live(ty).Keys * Ids(regs) == OwnIds(regs, ty);
    OneOwnId(regs, ty);
  }

  function OwnOfKind(regs: seq<Reg>, ty: uint32, h: Handler): set<nat> {
    set r | r in regs && r.t == ty && r.h == h :: r.id
  }

  /** Our handlers of one kind, and those of the others. */
  lemma KindSplits(t: Table<Handler>, regs: seq<Reg>, others: Table<Handler>, ty: uint32, h: Handler)
    requires Adds(t, regs, others)
    ensures HowMany(t, ty, h) == HowMany(others, ty, h) + |OwnOfKind(regs, ty, h)|
  {
    var own, before := OwnOfKind(regs, ty, h), IdsOf(others.Live(ty), h);
    assert others.Live(ty) == t.Without(Ids(regs)).Live(ty) == t.Live(ty) - Ids(regs);
    forall id ensures id in IdsOf(t.Live(ty), h) <==> id in before || id in own {
      if id in IdsOf(t.Live(ty), h) && id in Ids(regs) {
        assert Reg(ty, id, h) in regs;
      }
    }
    forall id | id in own ensures id !in before {
      assert id in Ids(regs);
    }
    assert IdsOf(t.Live(ty), h) == before + own && before !! own;
  }

  /** A call registers no state handler, and at most one lister for a type. */
  predicate ForCall(regs: seq<Reg>) {
    Distinct(regs) && forall r <- regs :: r.h != StateKeeper
  }

  lemma OwnListers(regs: seq<Reg>, ty: uint32)
    requires Distinct(regs)
    ensures |OwnOfKind(regs, ty, EntityLister)| == if ty in Listed(regs) then 1 else 0
  {
    if ty in Listed(regs) {
      var r :| r in regs && r.h == EntityLister && r.t == ty;
      assert OwnOfKind(regs, ty, EntityLister) == {r.id};
    } else {
      assert OwnOfKind(regs, ty, EntityLister) == {};
    }
  }

  lemma OwnKeepers(regs: seq<Reg>, ty: uint32)
    requires ForCall(regs)
    ensures OwnOfKind(regs, ty, StateKeeper) == {}
  {}

  /** The registry gains what it would have gained without us, and a registration where we have a lister. */
  lemma ContributionAdds(t: Table<Handler>, regs: seq<Reg>, others: Table<Handler>, m: Msg)
    requires Adds(t, regs, others) && ForCall(regs)
    ensures Contribution(t, m) ==
            (if TypeOf(m) in Listed(regs) then [Change.Listed(m)] else []) + Contribution(others, m)
  {
    KindSplits(t, regs, others, TypeOf(m), EntityLister);
    KindSplits(t, regs, others, TypeOf(m), StateKeeper);
    OwnListers(regs, TypeOf(m));
    OwnKeepers(regs, TypeOf(m));
    var n := HowMany(others, TypeOf(m), EntityLister);
    assert Copies(Change.Listed(m), n + 1) == [Change.Listed(m)] + Copies(Change.Listed(m), n);
  }

  // ----- Waiting -----

  /** Nobody else removes our handlers: a removal function knows the id of its own handler only. */
  predicate Respects(e: Event, regs: seq<Reg>) {
    e.Other? ==> Proper(e.a) && (e.a.Unregister? ==> e.a.id !in Ids(regs))
  }

  /** Table and registry are as without us but for our handlers and what our listers have put in. */
  ghost predicate Tracks(router: Router<Handler>, registry: EntityRegistry, regs: seq<Reg>, w: World)
    reads router, registry, registry.objects
  {
    && registry.Valid() && registry.log == w.log
    && Wired(router.State()) && Adds(router.State(), regs, w.table)
  }

  method Act(router: Router<Handler>, a: Action<Handler>)
    modifies router
    ensures router.State() == Apply(old(router.State()), a)
  {
    match a
    case Register(ty, h) => var _ := router.On(ty, h);
    case Unregister(ty, id) => router.Remove(ty, id);
  }

  /** One event happens; our handler, if one is called, is called with the message once. */
  method HandleEvent(router: Router<Handler>, registry: EntityRegistry, regs: seq<Reg>, e: Event, ghost w: World)
    returns (calls: seq<Msg>)
    requires Tracks(router, registry, regs, w) && ForCall(regs) && Respects(e, regs)
    requires router.nextID + Joins([e]) < TWO_64
    modifies router, registry, registry.objects
    ensures calls == Received([e], Types(regs))
    ensures Tracks(router, registry, regs, Happen(w, e, Listed(regs)))
    ensures fresh(registry.objects - old(registry.objects)) && router.nextID == old(router.nextID) + Joins([e])
  {
    ReceivedStep([], e, Types(regs));
    assert [e][..0] == [] && [] + [e] == [e];
    calls := [];
    match e {
      case Deliver(m) =>
        ContributionAdds(router.State(), regs, w.table, m);
        var called := HandleMessage(router, registry, m);
        OwnCalls(router.State(), regs, TypeOf(m), called);
        calls := OwnMessages(called, regs, m);
      case Other(a) =>
        AddsAction(router.State(), regs, w.table, a);
        ActionKeepsWired(router.State(), a);
        Act(router, a);
      case Wipe =>
        registry.Clear();
    }
  }

  /** Each handler of ours takes the message when it is called. */
  method OwnMessages(called: seq<(nat, Handler)>, regs: seq<Reg>, m: Msg) returns (calls: seq<Msg>)
    ensures calls == Times(m, CountIn(called, Ids(regs)))
  {
    calls := [];
    for i := 0 to |called|
      invariant calls == Times(m, CountIn(called[..i], Ids(regs)))
    {
      assert called[..i + 1][..i] == called[..i];
      if called[i].0 in Ids(regs) { calls := calls + [m]; }
    }
    assert called[..|called|] == called;
  }

  lemma EventStep(w: World, events: seq<Event>, i: nat, types: set<uint32>, extra: set<uint32>)
    requires i < |events|
    ensures Received(events[..i + 1], types) == Received(events[..i], types) + Received([events[i]], types)
    ensures HappenAll(w, events[..i + 1], extra) == Happen(HappenAll(w, events[..i], extra), events[i], extra)
    ensures Joins(events[..i + 1]) == Joins(events[..i]) + Joins([events[i]])
    ensures Joins(events[..i + 1]) <= Joins(events)
  {
    assert events[..i + 1] == events[..i] + [events[i]];
    ReceivedStep(events[..i], events[i], types);
    HappenOneMore(w, events[..i], events[i], extra);
    JoinsAppend(events[..i], [events[i]]);
    assert events == events[..i + 1] + events[i + 1..];
    JoinsAppend(events[..i + 1], events[i + 1..]);
  }

  /**
   The read loop and the others run while we wait. Our handler for a type is called once for each message
   of that type, whatever else is dispatched, registered or removed in between.
   */
  method Run(router: Router<Handler>, registry: EntityRegistry, regs: seq<Reg>, events: seq<Event>, ghost w: World)
    returns (calls: seq<Msg>)
    requires Tracks(router, registry, regs, w) && ForCall(regs)
    requires (forall e <- events :: Respects(e, regs)) && router.nextID + Joins(events) < TWO_64
    modifies router, registry, registry.objects
    ensures calls == Received(events, Types(regs))
    ensures Tracks(router, registry, regs, HappenAll(w, events, Listed(regs)))
    ensures fresh(registry.objects - old(registry.objects)) && router.nextID == old(router.nextID) + Joins(events)
  {
    calls := [];
    for i := 0 to |events|
      invariant calls == Received(events[..i], Types(regs))
      invariant Tracks(router, registry, regs, HappenAll(w, events[..i], Listed(regs)))
      invariant fresh(registry.objects - old(registry.objects))
      invariant router.nextID == old(router.nextID) + Joins(events[..i])
    {
      EventStep(w, events, i, Types(regs), Listed(regs));
      assert events[i] in events;
      var mine := HandleEvent(router, registry, regs, events[i], HappenAll(w, events[..i], Listed(regs)));
      calls := calls + mine;
    }
    assert events[..|events|] == events;
  }
}
