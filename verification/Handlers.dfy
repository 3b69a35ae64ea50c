/**
 What the handlers in the table do to the entity registry, and what a history of dispatches, registrations
 and removals does to table and registry together.
 */
module Handlers {
  import opened Bytes
  import opened Messages
  import opened Replay
  import opened Registry
  import opened Router

  /** The closures the client registers, told apart by what they do to the registry. */
  datatype Handler =
    | EntityLister            // of ListEntities: puts the message into the registry
    | StateKeeper             // of SubscribeStates: gives the message to the registry as a state
    | Waiter(owner: string)   // any other: leaves the registry alone

  predicate Fits(h: Handler, ty: uint32) {
    (h.EntityLister? ==> ty in LIST_ENTITY_IDS) && (h.StateKeeper? ==> ty in STATE_IDS)
  }

  predicate Proper(a: Action<Handler>) {
    a.Register? ==> Fits(a.h, a.t)
  }

  /** Listers and keepers are registered for the types the client registers them for, and for no others. */
  ghost predicate Wired(t: Table<Handler>) {
    forall ty, id :: id in t.Live(ty) ==> Fits(t.Live(ty)[id], ty)
  }

  lemma ActionKeepsWired(t: Table<Handler>, a: Action<Handler>)
    requires Wired(t) && Proper(a)
    ensures Wired(Apply(t, a))
  {
    var u := Apply(t, a);
    forall ty, id | id in u.Live(ty) ensures Fits(u.Live(ty)[id], ty) {
      assert id in t.Live(ty) || (a.Register? && ty == a.t && u.Live(ty)[id] == a.h);
    }
  }

  lemma NoTypeListsAndKeeps(ty: uint32)
    ensures ty in LIST_ENTITY_IDS ==> ty !in STATE_IDS
  {}

  // ----- Counting handlers and calls -----

  function IdsOf(live: map<nat, Handler>, h: Handler): set<nat> {
    set id | id in live && live[id] == h
  }

  function HowMany(t: Table<Handler>, ty: uint32, h: Handler): nat {
    |IdsOf(t.Live(ty), h)|
  }

  /** The calls of one dispatch are those of the handlers in `live`, each of them once. */
  ghost predicate CallsAll(called: seq<(nat, Handler)>, live: map<nat, Handler>) {
    && (forall c <- called :: c.0 in live && live[c.0] == c.1)
    && (forall id <- live :: (id, live[id]) in called)
    && (forall i, j :: 0 <= i < j < |called| ==> called[i].0 != called[j].0)
  }

  /** How many of the calls went to handlers with these ids. */
  function CountIn(called: seq<(nat, Handler)>, ids: set<nat>): nat {
    if called == [] then 0
    else var n := |called| - 1; CountIn(called[..n], ids) + if called[n].0 in ids then 1 else 0
  }

  function IdsIn(called: seq<(nat, Handler)>, ids: set<nat>): set<nat> {
    set c | c in called && c.0 in ids :: c.0
  }

  lemma IdsInStep(called: seq<(nat, Handler)>, c: (nat, Handler), ids: set<nat>)
    ensures IdsIn(called + [c], ids) == IdsIn(called, ids) + if c.0 in ids then {c.0} else {}
  {}

  lemma {:induction false} CountInIsSize(called: seq<(nat, Handler)>, ids: set<nat>)
    requires forall i, j :: 0 <= i < j < |called| ==> called[i].0 != called[j].0
    ensures CountIn(called, ids) == |IdsIn(called, ids)|
  {
    if called != [] {
      var before, last := called[..|called| - 1], called[|called| - 1];
      CountInIsSize(before, ids);
      IdsInStep(before, last, ids);
      assert called == before + [last];
      assert last.0 !in IdsIn(before, ids);
    }
  }

  /** Since each handler is called once, as many calls go to a set of ids as there are handlers with these ids. */
  lemma CallsOf(called: seq<(nat, Handler)>, live: map<nat, Handler>, ids: set<nat>)
    requires CallsAll(called, live)
    ensures CountIn(called, ids) == |live.Keys * ids|
  {
    CountInIsSize(called, ids);
    forall id ensures id in IdsIn(called, ids) <==> id in live.Keys * ids {
      if id in live.Keys * ids {
        assert (id, live[id]) in called;
      }
    }
    assert IdsIn(called, ids) == live.Keys * ids;
  }

  // ----- One dispatch -----

  /** What the registry's history gains from a dispatch, call by call. */
  function Changes(called: seq<(nat, Handler)>, m: Msg): Log {
    if called == [] then []
    else
      var n := |called| - 1;
      Changes(called[..n], m) + ChangeBy(called[n].1, m)
  }

  function ChangeBy(h: Handler, m: Msg): Log {
    match h
    case EntityLister => [Listed(m)]
    case StateKeeper => [Updated(m)]
    case Waiter(_) => []
  }

  /** What it gains, said by the table alone: a registration for every lister, a state for every keeper. */
  function Contribution(t: Table<Handler>, m: Msg): Log {
    Copies(Listed(m), HowMany(t, TypeOf(m), EntityLister)) + Copies(Updated(m), HowMany(t, TypeOf(m), StateKeeper))
  }

  lemma {:induction false} ChangesOfOneKind(called: seq<(nat, Handler)>, live: map<nat, Handler>, h: Handler, m: Msg)
    requires !h.Waiter?
    requires forall c <- called :: c.0 in live && live[c.0] == c.1 && (c.1 == h || c.1.Waiter?)
    ensures Changes(called, m) == Copies(ChangeBy(h, m)[0], CountIn(called, IdsOf(live, h)))
  {
    if called != [] {
      var n := |called| - 1;
      assert called[n] in called;
      ChangesOfOneKind(called[..n], live, h, m);
      var count := CountIn(called[..n], IdsOf(live, h));
      if called[n].1 == h {
        assert Copies(ChangeBy(h, m)[0], count + 1) == Copies(ChangeBy(h, m)[0], count) + ChangeBy(h, m);
      }
    }
  }

  lemma CallsOfKind(called: seq<(nat, Handler)>, live: map<nat, Handler>, h: Handler)
    requires CallsAll(called, live)
    ensures CountIn(called, IdsOf(live, h)) == |IdsOf(live, h)|
  {
    CallsOf(called, live, IdsOf(live, h));
    assert live.Keys * IdsOf(live, h) == IdsOf(live, h);
  }

  lemma NoneOf(t: Table<Handler>, ty: uint32, h: Handler)
    requires Wired(t) && !Fits(h, ty)
    ensures HowMany(t, ty, h) == 0
  {
    forall id ensures id !in IdsOf(t.Live(ty), h) {
      if id in t.Live(ty) { assert Fits(t.Live(ty)[id], ty); }
    }
    assert IdsOf(t.Live(ty), h) == {};
  }

  /** The order of the calls does not matter: no type has both listers and keepers. */
  lemma {:induction false} ChangesAreContribution(t: Table<Handler>, called: seq<(nat, Handler)>, m: Msg)
    requires Wired(t) && CallsAll(called, t.Live(TypeOf(m)))
    ensures Changes(called, m) == Contribution(t, m)
  {
    var ty := TypeOf(m);
    var h, other := if ty in LIST_ENTITY_IDS then EntityLister else StateKeeper,
                    if ty in LIST_ENTITY_IDS then StateKeeper else EntityLister;
    NoTypeListsAndKeeps(ty);
    NoneOf(t, ty, other);
    forall c <- called ensures c.1 == h || c.1.Waiter? {
      assert Fits(t.Live(ty)[c.0], ty);
    }
    ChangesOfOneKind(called, t.Live(ty), h, m);
    CallsOfKind(called, t.Live(ty), h);
    assert Contribution(t, m) == Copies(ChangeBy(h, m)[0], HowMany(t, ty, h));
  }

  function Nothing(i: nat, h: Handler): seq<Action<Handler>> {
    []
  }

  lemma {:induction false} NoEffects(called: seq<(nat, Handler)>)
    ensures Effects(called, Nothing) == []
  {
    if called != [] { NoEffects(called[..|called| - 1]); }
  }

  /** What the called handlers do to the registry, one after the other. */
  method RunHandlers(registry: EntityRegistry, called: seq<(nat, Handler)>, m: Msg)
    requires registry.Valid()
    modifies registry, registry.objects
    ensures registry.Valid() && fresh(registry.objects - old(registry.objects))
    ensures registry.log == old(registry.log) + Changes(called, m)
  {
    for i := 0 to |called|
      invariant registry.Valid() && fresh(registry.objects - old(registry.objects))
      invariant registry.log == old(registry.log) + Changes(called[..i], m)
    {
      assert called[..i + 1][..i] == called[..i];
      Associate(old(registry.log), Changes(called[..i], m), ChangeBy(called[i].1, m));
      match called[i].1 {
        case EntityLister => var _ := registry.HandleListEntityMessage(m);
        case StateKeeper => var _ := registry.HandleStateMessage(m);
        case Waiter(_) => assert registry.log + [] == registry.log;
      }
    }
    assert called[..|called|] == called;
  }

  /** A dispatch together with its effect on the registry. */
  method HandleMessage(router: Router<Handler>, registry: EntityRegistry, m: Msg) returns (called: seq<(nat, Handler)>)
    requires registry.Valid() && Wired(router.State())
    modifies router, registry, registry.objects
    ensures registry.Valid() && fresh(registry.objects - old(registry.objects))
    ensures router.State() == old(router.State())
    ensures CallsAll(called, router.State().Live(TypeOf(m)))
    ensures registry.log == old(registry.log) + Contribution(router.State(), m)
  {
    called := router.Dispatch(TypeOf(m), Nothing);
    NoEffects(called);
    ChangesAreContribution(router.State(), called, m);
    RunHandlers(registry, called, m);
  }

  // ----- Histories -----

  /** The handler table and the history of the registry. */
  datatype World = World(table: Table<Handler>, log: Log)

  ghost function WorldOf(router: Router<Handler>, registry: EntityRegistry): World
    reads router, registry
  {
    World(router.State(), registry.log)
  }

  /** A message is dispatched; somebody registers or removes a handler; the reconnect loop clears the registry. */
  datatype Event = Deliver(m: Msg) | Other(a: Action<Handler>) | Wipe

  /** One event, with one more lister for each of the `extra` types than the table says. */
  function Happen(w: World, e: Event, extra: set<uint32>): World {
    match e
    case Deliver(m) =>
      w.(log := w.log + ((if TypeOf(m) in extra then [Listed(m)] else []) + Contribution(w.table, m)))
    case Other(a) => w.(table := Apply(w.table, a))
    case Wipe => w.(log := w.log + [Cleared])
  }

  lemma DeliverPlain(w: World, m: Msg)
    ensures Happen(w, Deliver(m), {}) == w.(log := w.log + Contribution(w.table, m))
  {
    assert [] + Contribution(w.table, m) == Contribution(w.table, m);
  }

  function HappenAll(w: World, events: seq<Event>, extra: set<uint32>): World {
    if events == [] then w
    else var n := |events| - 1; Happen(HappenAll(w, events[..n], extra), events[n], extra)
  }

  lemma HappenOneMore(w: World, events: seq<Event>, e: Event, extra: set<uint32>)
    ensures HappenAll(w, events + [e], extra) == Happen(HappenAll(w, events, extra), e, extra)
  {
    assert (events + [e])[..|events|] == events;
  }

  lemma {:induction false} HappenAppend(w: World, first: seq<Event>, last: seq<Event>, extra: set<uint32>)
    ensures HappenAll(w, first + last, extra) == HappenAll(HappenAll(w, first, extra), last, extra)
  {
    if last == [] {
      assert first + last == first;
    } else {
      var before, e := last[..|last| - 1], last[|last| - 1];
      assert first + last == (first + before) + [e];
      HappenOneMore(w, first + before, e, extra);
      HappenAppend(w, first, before, extra);
    }
  }

  /** Registrations and removals as events. */
  function OtherEvents(actions: seq<Action<Handler>>): seq<Event> {
    seq(|actions|, i requires 0 <= i < |actions| => Other(actions[i]))
  }

  lemma {:induction false} HappenOthers(w: World, actions: seq<Action<Handler>>, extra: set<uint32>)
    ensures HappenAll(w, OtherEvents(actions), extra) == w.(table := ApplyAll(w.table, actions))
    decreases |actions|
  {
    if actions != [] {
      var before, last := actions[..|actions| - 1], actions[|actions| - 1];
      HappenOthers(w, before, extra);
      assert OtherEvents(actions) == OtherEvents(before) + [Other(last)];
      HappenOneMore(w, OtherEvents(before), Other(last), extra);
      assert actions == before + [last] && [last][1..] == [];
      ApplyAllAppend(w.table, before, [last]);
      assert ApplyAll(ApplyAll(w.table, before), [last]) == Apply(ApplyAll(w.table, before), last);
    }
  }

  lemma {:induction false} ActionsKeepWired(t: Table<Handler>, actions: seq<Action<Handler>>)
    requires Wired(t) && forall a <- actions :: Proper(a)
    ensures Wired(ApplyAll(t, actions))
    decreases |actions|
  {
    if actions != [] {
      ActionKeepsWired(t, actions[0]);
      ActionsKeepWired(Apply(t, actions[0]), actions[1..]);
    }
  }

  /**
   A dispatch during which the handlers and others register and remove handlers is a dispatch at the moment it
   takes its snapshot, followed by these actions.
   */
  method HandleMessageMeanwhile(router: Router<Handler>, registry: EntityRegistry, m: Msg,
                                during: (nat, Handler) -> seq<Action<Handler>>)
    returns (called: seq<(nat, Handler)>)
    requires registry.Valid() && Wired(router.State())
    modifies router, registry, registry.objects
    ensures registry.Valid() && fresh(registry.objects - old(registry.objects))
    ensures CallsAll(called, old(router.State()).Live(TypeOf(m)))
    ensures WorldOf(router, registry) ==
            HappenAll(old(WorldOf(router, registry)), [Deliver(m)] + OtherEvents(Effects(called, during)), {})
  {
    ghost var before := WorldOf(router, registry);
    called := router.Dispatch(TypeOf(m), during);
    ChangesAreContribution(before.table, called, m);
    RunHandlers(registry, called, m);
    HappenAppend(before, [Deliver(m)], OtherEvents(Effects(called, during)), {});
    HappenOneMore(before, [], Deliver(m), {});
    assert [] + [Deliver(m)] == [Deliver(m)];
    DeliverPlain(before, m);
    HappenOthers(Happen(before, Deliver(m), {}), Effects(called, during), {});
  }

  // ----- One entity through a history -----

  /** At this point n subscriptions take the states of the entity, and somebody lists it. */
  ghost predicate ServedAt(t: Table<Handler>, e: Event, extra: set<uint32>, d: Domain, k: uint32, n: nat) {
    e.Deliver? ==>
      && (Updates(Updated(e.m), d, k) ==> HowMany(t, TypeOf(e.m), StateKeeper) == n)
      && (Registers(Listed(e.m), Slot(d, k)) ==> TypeOf(e.m) in extra || HowMany(t, TypeOf(e.m), EntityLister) > 0)
  }

  /** That holds whenever a message about the entity is dispatched; all other messages are left open. */
  ghost predicate Served(w: World, events: seq<Event>, extra: set<uint32>, d: Domain, k: uint32, n: nat) {
    forall i :: 0 <= i < |events| ==> ServedAt(HappenAll(w, events[..i], extra).table, events[i], extra, d, k, n)
  }

  /** What the events say about the entity, without any table: its last listing, and its states since, n times each. */
  function Watch(h: Option<Held>, events: seq<Event>, d: Domain, k: uint32, n: nat): Option<Held> {
    if events == [] then h
    else
      var before, e := Watch(h, events[..|events| - 1], d, k, n), events[|events| - 1];
      match e
      case Deliver(m) =>
        if Registers(Listed(m), Slot(d, k)) then Some(Held(m, []))
        else if Updates(Updated(m), d, k) && before.Some? then
          Some(Held(before.value.listing, before.value.states + Times(m, n)))
        else before
      case Other(_) => before
      case Wipe => None
  }

  lemma ViewDelivered(w: World, m: Msg, extra: set<uint32>, d: Domain, k: uint32, n: nat)
    requires ServedAt(w.table, Deliver(m), extra, d, k, n)
    ensures View(Happen(w, Deliver(m), extra).log, d, k) ==
            if Registers(Listed(m), Slot(d, k)) then Some(Held(m, []))
            else if Updates(Updated(m), d, k) && View(w.log, d, k).Some? then
              Some(Held(View(w.log, d, k).value.listing, View(w.log, d, k).value.states + Times(m, n)))
            else View(w.log, d, k)
  {
    var listings := Listings(w.table, m, extra);
    DeliveredLog(w, m, extra);
    ViewListed(w.log, m, listings, d, k);
    ViewUpdated(w.log + Copies(Listed(m), listings), m, HowMany(w.table, TypeOf(m), StateKeeper), d, k);
  }

  /** How often a message is put into the registry as a listing. */
  function Listings(t: Table<Handler>, m: Msg, extra: set<uint32>): nat {
    HowMany(t, TypeOf(m), EntityLister) + if TypeOf(m) in extra then 1 else 0
  }

  lemma DeliveredLog(w: World, m: Msg, extra: set<uint32>)
    ensures Happen(w, Deliver(m), extra).log ==
            w.log + Copies(Listed(m), Listings(w.table, m, extra)) +
            Copies(Updated(m), HowMany(w.table, TypeOf(m), StateKeeper))
  {
    var own := if TypeOf(m) in extra then [Listed(m)] else [];
    var listers := Copies(Listed(m), HowMany(w.table, TypeOf(m), EntityLister));
    var updates := Copies(Updated(m), HowMany(w.table, TypeOf(m), StateKeeper));
    assert Copies(Listed(m), Listings(w.table, m, extra)) == own + listers;
    Associate(own, listers, updates);
    Associate(w.log, own + listers, updates);
  }

  /**
   After any history in which the entity was served, the registry's log says about it what the events say:
   other messages, other handlers and what they do in between do not matter.
   */
  lemma {:induction false} EntityFollowsEvents(w: World, events: seq<Event>, extra: set<uint32>,
                                               d: Domain, k: uint32, n: nat)
    requires Served(w, events, extra, d, k, n)
    ensures View(HappenAll(w, events, extra).log, d, k) == Watch(View(w.log, d, k), events, d, k, n)
  {
    if events != [] {
      var before, e := events[..|events| - 1], events[|events| - 1];
      forall i | 0 <= i < |before|
        ensures ServedAt(HappenAll(w, before[..i], extra).table, before[i], extra, d, k, n)
      {
        assert before[..i] == events[..i];
      }
      EntityFollowsEvents(w, before, extra, d, k, n);
      var v := HappenAll(w, before, extra);
      if e.Deliver? {
        ViewDelivered(v, e.m, extra, d, k, n);
      } else if e.Wipe? {
        ViewStep(v.log, Cleared, d, k);
      }
    }
  }

  /** The states the events bring for a domain and key. */
  function StatesIn(events: seq<Event>, d: Domain, k: uint32): (ms: seq<Msg>)
    ensures forall m <- ms :: IsState(m)
  {
    if events == [] then []
    else
      var n := |events| - 1;
      StatesIn(events[..n], d, k) +
      if events[n].Deliver? && Updates(Updated(events[n].m), d, k) then [events[n].m] else []
  }

  /** The event lists the entity, or clears everything. */
  predicate Resets(e: Event, d: Domain, k: uint32) {
    e.Wipe? || (e.Deliver? && Registers(Listed(e.m), Slot(d, k)))
  }

  lemma RepeatStep(ms: seq<Msg>, m: Msg, n: nat)
    ensures Repeat(ms + [m], n) == Repeat(ms, n) + Times(m, n)
  {
    assert (ms + [m])[..|ms|] == ms;
  }

  /** Without a new listing the states are added to those there were. */
  lemma {:induction false} WatchUnlisted(h: Option<Held>, events: seq<Event>, d: Domain, k: uint32, n: nat)
    requires forall e <- events :: !Resets(e, d, k)
    ensures Watch(h, events, d, k, n) ==
            if h.None? then None
            else Some(Held(h.value.listing, h.value.states + Repeat(StatesIn(events, d, k), n)))
  {
    if events == [] {
      if h.Some? { assert h.value.states + [] == h.value.states; }
    } else {
      var before, e := events[..|events| - 1], events[|events| - 1];
      WatchUnlisted(h, before, d, k, n);
      assert e in events;
      if e.Deliver? && Updates(Updated(e.m), d, k) {
        RepeatStep(StatesIn(before, d, k), e.m, n);
        if h.Some? {
          Associate(h.value.states, Repeat(StatesIn(before, d, k), n), Times(e.m, n));
        }
      } else {
        assert StatesIn(events, d, k) == StatesIn(before, d, k);
      }
    }
  }

  lemma {:induction false} WatchAppend(h: Option<Held>, first: seq<Event>, last: seq<Event>,
                                       d: Domain, k: uint32, n: nat)
    ensures Watch(h, first + last, d, k, n) == Watch(Watch(h, first, d, k, n), last, d, k, n)
  {
    if last == [] {
      assert first + last == first;
    } else {
      var before := last[..|last| - 1];
      assert (first + last)[..|first + last| - 1] == first + before;
      WatchAppend(h, first, before, d, k, n);
    }
  }

  /** The last listing counts, with the states after it. */
  lemma WatchListed(h: Option<Held>, events: seq<Event>, j: nat, d: Domain, k: uint32, n: nat)
    requires j < |events| && events[j].Deliver? && Resets(events[j], d, k)
    requires forall e <- events[j + 1..] :: !Resets(e, d, k)
    ensures Watch(h, events, d, k, n) == Some(Held(events[j].m, Repeat(StatesIn(events[j + 1..], d, k), n)))
  {
    var first, last := events[..j + 1], events[j + 1..];
    assert events == first + last && first[..|first| - 1] == events[..j];
    WatchAppend(h, first, last, d, k, n);
    WatchUnlisted(Watch(h, first, d, k, n), last, d, k, n);
    var states := Repeat(StatesIn(last, d, k), n);
    assert [] + states == states;
  }
}
