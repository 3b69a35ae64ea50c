/** The client calls that wait for an answer, each with the closures it registers. */
module Calls {
  import opened Bytes
  import opened Messages
  import opened Replay
  import opened Registry
  import opened Router
  import opened Handlers
  import opened Requests

  /** Ids do not run out, and nobody else takes our handlers away. */
  ghost predicate Undisturbed(router: Router<Handler>, registry: EntityRegistry, n: nat, events: seq<Event>)
    reads router, registry, registry.objects
  {
    && registry.Valid() && router.State().Issued() && Wired(router.State())
    && router.nextID + n + Joins(events) < TWO_64
    && forall e <- events :: e.Other? ==>
         Proper(e.a) && (e.a.Unregister? ==> !(router.nextID < e.a.id <= router.nextID + n))
  }

  /**
   What table and registry are once a call with n handlers is over: as if the call had only used up n ids and,
   for the `listed` types, put each message into the registry that was dispatched while its handlers were there.
   */
  ghost predicate LeavesNoTrace(before: World, n: nat, events: seq<Event>, listed: set<uint32>, after: World) {
    var without := HappenAll(World(Bump(before.table, n), before.log), events, listed);
    after.table.Same(without.table) && after.log == without.log
  }

  predicate TypesDiffer(wanted: seq<(uint32, Handler)>) {
    forall i, j :: 0 <= i < j < |wanted| ==> wanted[i].0 != wanted[j].0
  }

  /** What a call may register: no state handlers, and one handler for each type. */
  predicate Wanted(wanted: seq<(uint32, Handler)>) {
    TypesDiffer(wanted) && forall x <- wanted :: Fits(x.1, x.0) && x.1 != StateKeeper
  }

  function WantedTypes(wanted: seq<(uint32, Handler)>): set<uint32> {
    set x | x in wanted :: x.0
  }

  function WantedListed(wanted: seq<(uint32, Handler)>): set<uint32> {
    set x | x in wanted && x.1 == EntityLister :: x.0
  }

  lemma RegsOfWanted(wanted: seq<(uint32, Handler)>, regs: seq<Reg>, first: nat)
    requires Wanted(wanted) && |regs| == |wanted|
    requires forall i :: 0 <= i < |wanted| ==> regs[i] == Reg(wanted[i].0, first + i, wanted[i].1)
    ensures ForCall(regs) && Types(regs) == WantedTypes(wanted) && Requests.Listed(regs) == WantedListed(wanted)
    ensures forall id <- Ids(regs) :: first <= id < first + |wanted|
  {
    forall i | 0 <= i < |wanted| ensures regs[i] in regs && wanted[i] in wanted {}
    forall r <- regs ensures (r.t, r.h) in wanted {
      var i :| 0 <= i < |regs| && regs[i] == r;
      assert wanted[i] == (r.t, r.h);
    }
    forall x <- wanted ensures exists r <- regs :: r.t == x.0 && r.h == x.1 {
      var i :| 0 <= i < |wanted| && wanted[i] == x;
      assert regs[i] in regs;
    }
  }

  /** Registers handlers for the wanted types and lets the events happen. */
  method Listen(router: Router<Handler>, registry: EntityRegistry, wanted: seq<(uint32, Handler)>, events: seq<Event>)
    returns (regs: seq<Reg>, calls: seq<Msg>, ghost w: World)
    requires Undisturbed(router, registry, |wanted|, events) && Wanted(wanted)
    modifies router, registry, registry.objects
    ensures |regs| == |wanted|
    ensures forall i :: 0 <= i < |wanted| ==> regs[i] == Reg(wanted[i].0, old(router.nextID) + 1 + i, wanted[i].1)
    ensures ForCall(regs) && calls == Received(events, WantedTypes(wanted))
    ensures w == HappenAll(World(Bump(old(router.State()), |wanted|), old(registry.log)), events, WantedListed(wanted))
    ensures Tracks(router, registry, regs, w) && fresh(registry.objects - old(registry.objects))
  {
    regs := RegisterAll(router, wanted);
    RegsOfWanted(wanted, regs, old(router.nextID) + 1);
    w := World(Bump(old(router.State()), |wanted|), registry.log);
    forall e <- events ensures Respects(e, regs) {}
    calls := Requests.Run(router, registry, regs, events, w);
    w := HappenAll(w, events, WantedListed(wanted));
  }

  /** Removes the handlers again. */
  method Leave(router: Router<Handler>, registry: EntityRegistry, regs: seq<Reg>, ghost w: World)
    requires Tracks(router, registry, regs, w)
    modifies router
    ensures router.State().Same(w.table) && registry.Valid() && registry.log == w.log
  {
    RemoveAll(router, regs);
  }

  /** Registers handlers for the wanted types, lets the events happen, and removes the handlers again. */
  method Collect(router: Router<Handler>, registry: EntityRegistry, wanted: seq<(uint32, Handler)>, events: seq<Event>)
    returns (calls: seq<Msg>)
    requires Undisturbed(router, registry, |wanted|, events) && Wanted(wanted)
    modifies router, registry, registry.objects
    ensures registry.Valid() && fresh(registry.objects - old(registry.objects))
    ensures calls == Received(events, WantedTypes(wanted))
    ensures LeavesNoTrace(old(WorldOf(router, registry)), |wanted|, events, WantedListed(wanted),
                          WorldOf(router, registry))
  {
    var regs;
    ghost var w;
    regs, calls, w := Listen(router, registry, wanted, events);
    Leave(router, registry, regs, w);
  }

  // ----- requestResponse -----

  datatype Reply = Got(m: Msg) | SendFailed | TimedOut | Closed

  /**
   Waits for one message of the type. The handler puts it into a channel of capacity one and drops it when
   the channel is full, so it never keeps the read loop waiting: every event is handled to its end.
   */
  method RequestResponse(router: Router<Handler>, registry: EntityRegistry, respType: uint32, events: seq<Event>,
                         sendOk: bool, wake: Wake)
    returns (reply: Reply)
    requires Undisturbed(router, registry, 1, events)
    requires sendOk && wake.Arrived? ==> Received(events, {respType}) != []
    modifies router, registry, registry.objects
    ensures registry.Valid()
    ensures LeavesNoTrace(old(WorldOf(router, registry)), 1, events, {}, WorldOf(router, registry))
    ensures reply ==
            if !sendOk then SendFailed
            else match wake
              case Arrived => Got(Received(events, {respType})[0])
              case TimerFired => TimedOut
              case ConnectionClosed => Closed
  {
    var wanted := [(respType, Waiter("requestResponse"))];
    OneWaiter(respType, "requestResponse");
    var calls := Collect(router, registry, wanted, events);
    var ch: Option<Msg> := None;
    for i := 0 to |calls|
      invariant ch == if i == 0 then None else Some(calls[0])
    {
      if ch == None { ch := Some(calls[i]); }
    }
    if !sendOk { return SendFailed; }
    match wake {
      case Arrived => reply := Got(ch.value);
      case TimerFired => reply := TimedOut;
      case ConnectionClosed => reply := Closed;
    }
  }

  lemma OneWaiter(ty: uint32, owner: string)
    ensures var wanted := [(ty, Waiter(owner))];
            Wanted(wanted) && WantedTypes(wanted) == {ty} && WantedListed(wanted) == {}
  {
    assert (ty, Waiter(owner)) in [(ty, Waiter(owner))];
  }

  // ----- ListEntities -----

  datatype Listing = Entities(ms: seq<Msg>) | ListSendFailed | ListTimedOut | ListClosed | Panicked

  function Select(ms: seq<Msg>, types: set<uint32>): seq<Msg> {
    if ms == [] then []
    else
      var n := |ms| - 1;
      Select(ms[..n], types) + if TypeOf(ms[n]) in types then [ms[n]] else []
  }

  lemma {:induction false} SelectReceived(events: seq<Event>, types: set<uint32>, some: set<uint32>)
    requires some <= types
    ensures Select(Received(events, types), some) == Received(events, some)
  {
    if events != [] {
      var n := |events| - 1;
      var before := Received(events[..n], types);
      SelectReceived(events[..n], types, some);
      if events[n].Deliver? && TypeOf(events[n].m) in types {
        assert (before + [events[n].m])[..|before|] == before;
      } else {
        assert Received(events, types) == before;
      }
    }
  }

  function ListTypes(): set<uint32> {
    set t | t in LIST_ENTITY_IDS
  }

  /** The done handler, and a lister for each type that carries an entity or a service. */
  function ListHandlers(ids: seq<uint32>): seq<(uint32, Handler)> {
    [(LIST_DONE_ID, Waiter("ListEntities"))] +
    seq(|ids|, i requires 0 <= i < |ids| => (ids[i], EntityLister))
  }

  predicate Ascending(ids: seq<uint32>) {
    forall i, j :: 0 <= i < j < |ids| ==> ids[i] < ids[j]
  }

  lemma ListIdsAscend()
    ensures LIST_DONE_ID !in LIST_ENTITY_IDS && Ascending(LIST_ENTITY_IDS)
  {
    assert forall i :: 0 <= i < |LIST_ENTITY_IDS| - 1 ==> LIST_ENTITY_IDS[i] < LIST_ENTITY_IDS[i + 1];
    forall i, j | 0 <= i < j < |LIST_ENTITY_IDS| ensures LIST_ENTITY_IDS[i] < LIST_ENTITY_IDS[j] {
      StepsAscend(LIST_ENTITY_IDS, i, j);
    }
  }

  lemma {:induction false} StepsAscend(s: seq<uint32>, i: nat, j: nat)
    requires i < j < |s| && forall k :: 0 <= k < |s| - 1 ==> s[k] < s[k + 1]
    ensures s[i] < s[j]
  {
    assert s[j - 1] < s[j - 1 + 1];
    if i < j - 1 { StepsAscend(s, i, j - 1); }
  }

  lemma ListHandlersWanted(ids: seq<uint32>)
    requires LIST_DONE_ID !in ids && Ascending(ids) && forall id <- ids :: id in ListTypes()
    ensures var wanted := ListHandlers(ids);
            && Wanted(wanted) && |wanted| == 1 + |ids|
            && WantedListed(wanted) == (set t | t in ids) && WantedTypes(wanted) == (set t | t in ids) + {LIST_DONE_ID}
  {
    var wanted := ListHandlers(ids);
    forall i | 0 < i < |wanted| ensures wanted[i] == (ids[i - 1], EntityLister) && ids[i - 1] in ids {}
    assert wanted[0] in wanted;
    forall t ensures (t, EntityLister) in wanted <==> t in ids {
      if t in ids {
        var i :| 0 <= i < |ids| && ids[i] == t;
        assert wanted[i + 1] == (t, EntityLister);
      }
    }
    assert WantedListed(wanted) == set t | t in ids;
    forall t ensures t in WantedTypes(wanted) <==> t in ids || t == LIST_DONE_ID {
      if t in ids { assert (t, EntityLister) in wanted; }
    }
  }

  /**
   Returns the entity and service messages dispatched from the registration until the caller looks, in order. In
   the registry each of them is a registration where it was dispatched, between whatever states and other
   registrations came with it; so is each that is dispatched between the look and the removal of the
   handlers. A second done message closes the channel again, which panics.
   */
  method ListEntities(router: Router<Handler>, registry: EntityRegistry, waiting: seq<Event>, leaving: seq<Event>,
                      sendOk: bool, wake: Wake)
    returns (listing: Listing)
    requires Undisturbed(router, registry, 1 + |LIST_ENTITY_IDS|, waiting + leaving)
    requires sendOk && wake.Arrived? ==> Received(waiting, {LIST_DONE_ID}) != []
    modifies router, registry, registry.objects
    ensures registry.Valid()
    ensures listing.Panicked? <==> |Received(waiting + leaving, {LIST_DONE_ID})| > 1
    ensures !listing.Panicked? ==>
              && LeavesNoTrace(old(WorldOf(router, registry)), 1 + |LIST_ENTITY_IDS|, waiting + leaving, ListTypes(),
                               WorldOf(router, registry))
              && listing ==
                 if !sendOk then ListSendFailed
                 else match wake
                   case Arrived => Entities(Received(waiting, ListTypes()))
                   case TimerFired => ListTimedOut
                   case ConnectionClosed => ListClosed
  {
    ListIdsAscend();
    ListHandlersWanted(LIST_ENTITY_IDS);
    var calls := Collect(router, registry, ListHandlers(LIST_ENTITY_IDS), waiting + leaving);
    var types := ListTypes() + {LIST_DONE_ID};
    var seen := CallsUntilLook(waiting, leaving, types, calls);
    SelectReceived(waiting, types, ListTypes());
    SelectReceived(waiting + leaving, types, {LIST_DONE_ID});
    SelectSplit(calls, seen, {LIST_DONE_ID});

    var entities, done, panicked := RunListHandlers(calls[..seen], false);
    var listed := entities;   // what the caller looks at
    if !panicked {
      entities, done, panicked := RunListHandlers(calls[seen..], done);
    }
    if panicked { return Panicked; }
    if !sendOk { return ListSendFailed; }
    match wake {
      case Arrived => listing := Entities(listed);
      case TimerFired => listing := ListTimedOut;
      case ConnectionClosed => listing := ListClosed;
    }
  }

  /** How many of the calls of our handlers came before the caller looked. */
  method CallsUntilLook(waiting: seq<Event>, leaving: seq<Event>, types: set<uint32>, calls: seq<Msg>)
    returns (seen: nat)
    requires calls == Received(waiting + leaving, types)
    ensures seen <= |calls| && calls[..seen] == Received(waiting, types)
  {
    ReceivedAppend(waiting, leaving, types);
    seen := 0;
    for i := 0 to |waiting|
      invariant seen == |Received(waiting[..i], types)|
    {
      assert waiting[..i + 1][..i] == waiting[..i];
      if waiting[i].Deliver? && TypeOf(waiting[i].m) in types { seen := seen + 1; }
    }
    assert waiting[..|waiting|] == waiting;
  }

  /**
   The caller's side of the closures: the done handler closes its channel, the others append to the slice. What
   they put into the registry happens where they are called.
   */
  method RunListHandlers(calls: seq<Msg>, closed: bool) returns (entities: seq<Msg>, done: bool, panicked: bool)
    ensures panicked <==> |Select(calls, {LIST_DONE_ID})| + (if closed then 1 else 0) > 1
    ensures !panicked ==> entities == Select(calls, ListTypes())
    ensures !panicked ==> (done <==> closed || Select(calls, {LIST_DONE_ID}) != [])
  {
    ListIdsAscend();
    done, entities := closed, [];
    for i := 0 to |calls|
      invariant entities == Select(calls[..i], ListTypes())
      invariant |Select(calls[..i], {LIST_DONE_ID})| + (if closed then 1 else 0) == if done then 1 else 0
    {
      SelectStep(calls, i, ListTypes());
      SelectStep(calls, i, {LIST_DONE_ID});
      if TypeOf(calls[i]) == LIST_DONE_ID {
        if done { return entities, done, true; }
        done := true;
      } else if TypeOf(calls[i]) in LIST_ENTITY_IDS {
        entities := entities + [calls[i]];
      }
    }
    assert calls[..|calls|] == calls;
    panicked := false;
  }

  lemma {:induction false} SelectAppend(first: seq<Msg>, last: seq<Msg>, types: set<uint32>)
    ensures Select(first + last, types) == Select(first, types) + Select(last, types)
  {
    if last == [] {
      assert first + last == first;
    } else {
      var before := last[..|last| - 1];
      assert (first + last)[..|first + last| - 1] == first + before;
      SelectAppend(first, before, types);
    }
  }

  lemma SelectSplit(ms: seq<Msg>, n: nat, types: set<uint32>)
    requires n <= |ms|
    ensures |Select(ms, types)| == |Select(ms[..n], types)| + |Select(ms[n..], types)|
  {
    assert ms == ms[..n] + ms[n..];
    SelectAppend(ms[..n], ms[n..], types);
  }

  lemma SelectStep(ms: seq<Msg>, i: nat, types: set<uint32>)
    requires i < |ms|
    ensures Select(ms[..i + 1], types) == Select(ms[..i], types) + if TypeOf(ms[i]) in types then [ms[i]] else []
    ensures |Select(ms[..i + 1], types)| <= |Select(ms, types)|
    decreases |ms| - i
  {
    assert ms[..i + 1][..i] == ms[..i];
    if i + 1 < |ms| {
      SelectStep(ms, i + 1, types);
    } else {
      assert ms[..i + 1] == ms;
    }
  }

  /**
   What a listing leaves in the registry for an entity: its last listing and, for each of n live subscriptions, the
   states that were dispatched after it, whether before or after the listing was done.
   */
  lemma ListedWithStates(before: World, events: seq<Event>, j: nat, d: Domain, k: uint32, n: nat)
    requires j < |events| && events[j].Deliver? && Resets(events[j], d, k)
    requires forall e <- events[j + 1..] :: !Resets(e, d, k)
    requires forall i :: 0 <= i < |events| && events[i].Deliver? && Updates(Updated(events[i].m), d, k) ==>
               HowMany(HappenAll(before, events[..i], ListTypes()).table, TypeOf(events[i].m), StateKeeper) == n
    ensures View(HappenAll(before, events, ListTypes()).log, d, k) ==
            Some(Held(events[j].m, Repeat(StatesIn(events[j + 1..], d, k), n)))
  {
    forall i | 0 <= i < |events|
      ensures ServedAt(HappenAll(before, events[..i], ListTypes()).table, events[i], ListTypes(), d, k, n)
    {
      if events[i].Deliver? && Registers(Listed(events[i].m), Slot(d, k)) {
        ListIdIsListed(d);
      }
    }
    EntityFollowsEvents(before, events, ListTypes(), d, k, n);
    WatchListed(View(before.log, d, k), events, j, d, k, n);
  }

  /**
   With one done message and no entity or service message after it, the listing is what came between the
   registration and that message, whatever other types were interleaved.
   */
  lemma {:induction false} ListedUpToDone(events: seq<Event>, j: nat)
    requires j < |events| && events[j] == Deliver(ListDone)
    requires forall i :: j < i < |events| && events[i].Deliver? ==> TypeOf(events[i].m) !in ListTypes()
    ensures Received(events, ListTypes()) == Received(events[..j], ListTypes())
  {
    NothingReceivedAfter(events, j, ListTypes());
  }

  lemma {:induction false} NothingReceivedAfter(events: seq<Event>, j: nat, types: set<uint32>)
    requires j <= |events|
    requires forall i :: j <= i < |events| && events[i].Deliver? ==> TypeOf(events[i].m) !in types
    ensures Received(events, types) == Received(events[..j], types)
  {
    var n := |events| - 1;
    if j <= n {
      NothingReceivedAfter(events[..n], j, types);
      assert events[..n][..j] == events[..j];
    } else {
      assert events[..j] == events;
    }
  }

  // ----- BluetoothGATTGetServices -----

  const GATT_TYPES: seq<uint32> := [GATT_SERVICES_ID, GATT_SERVICES_DONE_ID, GATT_ERROR_ID]

  datatype ServicesReply =
    | Services(services: seq<string>) | GattFailed(code: int)
    | ServicesSendFailed | ServicesTimedOut | ServicesClosed | ServicesPanicked

  /** The part of the traffic that is about this device: its service lists, and the messages that end the request. */
  function About(ms: seq<Msg>, address: nat): seq<Msg> {
    if ms == [] then []
    else
      var n := |ms| - 1;
      About(ms[..n], address) + if Concerns(ms[n], address) then [ms[n]] else []
  }

  predicate Concerns(m: Msg, address: nat) {
    match m
    case GattServices(a, _) => a == address
    case GattServicesDone(a) => a == address
    case GattError(a, _, _) => a == address
    case _ => false
  }

  /** The service lists put together, in order of arrival. */
  function ServiceLists(ms: seq<Msg>): seq<string> {
    if ms == [] then []
    else var n := |ms| - 1; ServiceLists(ms[..n]) + if ms[n].GattServices? then ms[n].services else []
  }

  /** The messages that close the done channel. */
  function Terminals(ms: seq<Msg>): (ts: seq<Msg>)
    ensures forall t <- ts :: t.GattServicesDone? || t.GattError?
  {
    if ms == [] then []
    else
      var n := |ms| - 1;
      Terminals(ms[..n]) + if ms[n].GattServicesDone? || ms[n].GattError? then [ms[n]] else []
  }

  ghost predicate AllTyped(events: seq<Event>) {
    forall e <- events :: e.Deliver? ==> Typed(e.m)
  }

  function GattTypes(): set<uint32> {
    set t | t in GATT_TYPES
  }

  function GattTraffic(events: seq<Event>, address: nat): seq<Msg> {
    About(Received(events, GattTypes()), address)
  }

  function GattHandlers(): seq<(uint32, Handler)> {
    var h := Waiter("BluetoothGATTGetServices");
    [(GATT_SERVICES_ID, h), (GATT_SERVICES_DONE_ID, h), (GATT_ERROR_ID, h)]
  }

  lemma GattHandlersWanted()
    ensures Wanted(GattHandlers()) && WantedTypes(GattHandlers()) == GattTypes() && WantedListed(GattHandlers()) == {}
  {
    var wanted := GattHandlers();
    assert wanted[0] in wanted && wanted[1] in wanted && wanted[2] in wanted;
    assert GATT_TYPES[0] in GATT_TYPES && GATT_TYPES[1] in GATT_TYPES && GATT_TYPES[2] in GATT_TYPES;
  }

  /**
   The outcome depends on the traffic about this device alone: the service lists that came before the caller
   looked, put together, or the error. A second message that ends the request closes the channel again,
   which panics.
   */
  method BluetoothGATTGetServices(router: Router<Handler>, registry: EntityRegistry, address: nat,
                                  waiting: seq<Event>, leaving: seq<Event>, sendOk: bool, wake: Wake)
    returns (reply: ServicesReply)
    requires Undisturbed(router, registry, |GATT_TYPES|, waiting + leaving) && AllTyped(waiting + leaving)
    requires sendOk && wake.Arrived? ==> Terminals(GattTraffic(waiting, address)) != []
    modifies router, registry, registry.objects
    ensures registry.Valid()
    ensures reply.ServicesPanicked? <==> |Terminals(GattTraffic(waiting + leaving, address))| > 1
    ensures var traffic := GattTraffic(waiting, address);
            !reply.ServicesPanicked? ==>
              && LeavesNoTrace(old(WorldOf(router, registry)), |GATT_TYPES|, waiting + leaving, {},
                               WorldOf(router, registry))
              && reply ==
                 if !sendOk then ServicesSendFailed
                 else match wake
                   case Arrived =>
                     var first := Terminals(traffic)[0];
                     if first.GattError? then GattFailed(first.code) else Services(ServiceLists(traffic))
                   case TimerFired => ServicesTimedOut
                   case ConnectionClosed => ServicesClosed
  {
    GattHandlersWanted();
    var calls := Collect(router, registry, GattHandlers(), waiting + leaving);
    var seen := CallsUntilLook(waiting, leaving, GattTypes(), calls);
    forall m <- calls ensures Typed(m) && TypeOf(m) in GATT_TYPES {}
    AboutSplit(calls, seen, address);

    var services, errResult, done, panicked := RunServiceHandlers(calls[..seen], address, false);
    if !panicked {
      var _, _, _, again := RunServiceHandlers(calls[seen..], address, done);
      panicked := again;
    }
    if panicked { return ServicesPanicked; }
    if !sendOk { return ServicesSendFailed; }
    match wake {
      case Arrived => reply := if errResult.Some? then GattFailed(errResult.value) else Services(services);
      case TimerFired => reply := ServicesTimedOut;
      case ConnectionClosed => reply := ServicesClosed;
    }
  }

  /** The three closures. */
  method RunServiceHandlers(calls: seq<Msg>, address: nat, closed: bool)
    returns (services: seq<string>, errResult: Option<int>, done: bool, panicked: bool)
    requires forall m <- calls :: Typed(m) && TypeOf(m) in GATT_TYPES
    ensures panicked <==> |Terminals(About(calls, address))| + (if closed then 1 else 0) > 1
    ensures !panicked ==> services == ServiceLists(About(calls, address))
    ensures !panicked ==> (done <==> closed || Terminals(About(calls, address)) != [])
    ensures !panicked ==> errResult == ErrorOf(Terminals(About(calls, address)))
  {
    done, services, errResult := closed, [], None;
    for i := 0 to |calls|
      invariant services == ServiceLists(About(calls[..i], address))
      invariant |Terminals(About(calls[..i], address))| + (if closed then 1 else 0) == if done then 1 else 0
      invariant errResult == ErrorOf(Terminals(About(calls[..i], address)))
    {
      assert calls[i] in calls;
      ServiceStep(calls, i, address);
      services, errResult, done, panicked := ServiceHandler(calls[i], address, services, errResult, done);
      if panicked { return; }
    }
    assert calls[..|calls|] == calls;
    panicked := false;
  }

  predicate Ends(m: Msg, address: nat) {
    Concerns(m, address) && !m.GattServices?
  }

  /** The error that the request ends with, if it does. */
  function ErrorOf(ends: seq<Msg>): Option<int>
    requires forall m <- ends :: m.GattServicesDone? || m.GattError?
  {
    if ends != [] && ends[0].GattError? then Some(ends[0].code) else None
  }

  lemma ServiceStep(ms: seq<Msg>, i: nat, address: nat)
    requires i < |ms|
    ensures var m, before, after := ms[i], About(ms[..i], address), About(ms[..i + 1], address);
            && ServiceLists(after) ==
               ServiceLists(before) + (if Concerns(m, address) && m.GattServices? then m.services else [])
            && |Terminals(after)| == |Terminals(before)| + (if Ends(m, address) then 1 else 0)
            && |Terminals(after)| <= |Terminals(About(ms, address))|
            && (!Ends(m, address) ==> ErrorOf(Terminals(after)) == ErrorOf(Terminals(before)))
            && (Ends(m, address) && Terminals(before) == [] ==>
                  ErrorOf(Terminals(after)) == if m.GattError? then Some(m.code) else None)
  {
    AboutStep(ms, i, address);
    var m, before := ms[i], Terminals(About(ms[..i], address));
    assert before + [] == before && [] + [m] == [m];
  }

  /** One call of one of the three closures. */
  method ServiceHandler(m: Msg, address: nat, before: seq<string>, error: Option<int>, closed: bool)
    returns (services: seq<string>, errResult: Option<int>, done: bool, panicked: bool)
    requires Typed(m) && TypeOf(m) in GATT_TYPES
    ensures panicked <==> closed && Ends(m, address)
    ensures services == before + if Concerns(m, address) && m.GattServices? then m.services else []
    ensures !panicked ==> (done <==> closed || Ends(m, address))
    ensures errResult == if Ends(m, address) && m.GattError? then Some(m.code) else error
  {
    services, errResult, done, panicked := before, error, closed, false;
    match m {
      case GattServices(a, list) =>
        if a == address { services := services + list; }
      case GattServicesDone(a) =>
        if a == address {
          panicked := done;
          done := true;
        }
      case GattError(a, _, code) =>
        if a == address {
          errResult := Some(code);
          panicked := done;
          done := true;
        }
      case _ =>
    }
  }

  lemma {:induction false} TerminalsAppend(first: seq<Msg>, last: seq<Msg>)
    ensures Terminals(first + last) == Terminals(first) + Terminals(last)
  {
    if last == [] {
      assert first + last == first;
    } else {
      var before := last[..|last| - 1];
      assert (first + last)[..|first + last| - 1] == first + before;
      TerminalsAppend(first, before);
    }
  }

  lemma AboutSplit(ms: seq<Msg>, n: nat, address: nat)
    requires n <= |ms|
    ensures |Terminals(About(ms, address))| ==
            |Terminals(About(ms[..n], address))| + |Terminals(About(ms[n..], address))|
  {
    assert ms == ms[..n] + ms[n..];
    AboutAppend(ms[..n], ms[n..], address);
    TerminalsAppend(About(ms[..n], address), About(ms[n..], address));
  }

  lemma AboutStep(ms: seq<Msg>, i: nat, address: nat)
    requires i < |ms|
    ensures var before, after := About(ms[..i], address), About(ms[..i + 1], address);
            && after == before + (if Concerns(ms[i], address) then [ms[i]] else [])
            && ServiceLists(after) == ServiceLists(before) +
               (if Concerns(ms[i], address) && ms[i].GattServices? then ms[i].services else [])
            && Terminals(after) == Terminals(before) +
               (if Concerns(ms[i], address) && !ms[i].GattServices? then [ms[i]] else [])
            && |Terminals(after)| <= |Terminals(About(ms, address))|
    decreases |ms| - i
  {
    assert ms[..i + 1][..i] == ms[..i];
    var before, after := About(ms[..i], address), About(ms[..i + 1], address);
    if Concerns(ms[i], address) {
      assert after[..|before|] == before;
    } else {
      assert after == before;
    }
    if i + 1 < |ms| {
      AboutStep(ms, i + 1, address);
    } else {
      assert ms[..i + 1] == ms;
    }
  }

  /** Messages of the three kinds with another address, and all other messages, do not matter. */
  lemma OtherDevicesDoNotMatter(first: seq<Event>, m: Msg, last: seq<Event>, address: nat)
    requires m.GattServices? || m.GattServicesDone? || m.GattError? ==> m.address != address
    ensures GattTraffic(first + [Deliver(m)] + last, address) == GattTraffic(first + last, address)
  {
    GattTrafficOfOne(m, address);
    GattTrafficInsert(first, Deliver(m), last, address);
    GattTrafficAppend(first, last, address);
    assert GattTraffic(first, address) + [] == GattTraffic(first, address);
  }

  lemma GattTrafficOfOne(m: Msg, address: nat)
    ensures GattTraffic([Deliver(m)], address) ==
            if (m.GattServices? || m.GattServicesDone? || m.GattError?) && m.address == address then [m] else []
  {
    ReceivedStep([], Deliver(m), GattTypes());
    if m.GattServices? || m.GattServicesDone? || m.GattError? { GattTypesAreReceived(m); }
    AboutOne(m, address);
  }

  lemma GattTypesAreReceived(m: Msg)
    requires m.GattServices? || m.GattServicesDone? || m.GattError?
    ensures TypeOf(m) in GattTypes()
  {
    assert GATT_TYPES[0] in GATT_TYPES && GATT_TYPES[1] in GATT_TYPES && GATT_TYPES[2] in GATT_TYPES;
  }

  lemma GattTrafficInsert(first: seq<Event>, e: Event, last: seq<Event>, address: nat)
    ensures GattTraffic(first + [e] + last, address) ==
            GattTraffic(first, address) + GattTraffic([e], address) + GattTraffic(last, address)
  {
    GattTrafficAppend(first + [e], last, address);
    GattTrafficAppend(first, [e], address);
  }

  /** Each message of the three kinds with this address does, in its place. */
  lemma OwnMessagesMatter(first: seq<Event>, m: Msg, last: seq<Event>, address: nat)
    requires (m.GattServices? || m.GattServicesDone? || m.GattError?) && m.address == address
    ensures GattTraffic(first + [Deliver(m)] + last, address) ==
            GattTraffic(first, address) + [m] + GattTraffic(last, address)
  {
    GattTrafficOfOne(m, address);
    GattTrafficInsert(first, Deliver(m), last, address);
  }

  /** A service list contributes its services, a done message or an error ends the request. */
  lemma WhatServiceMessagesDo(first: seq<Msg>, m: Msg)
    ensures ServiceLists(first + [m]) == ServiceLists(first) + if m.GattServices? then m.services else []
    ensures Terminals(first + [m]) == Terminals(first) + if m.GattServicesDone? || m.GattError? then [m] else []
  {
    assert (first + [m])[..|first|] == first;
  }

  lemma GattTrafficAppend(first: seq<Event>, last: seq<Event>, address: nat)
    ensures GattTraffic(first + last, address) == GattTraffic(first, address) + GattTraffic(last, address)
  {
    ReceivedAppend(first, last, GattTypes());
    AboutAppend(Received(first, GattTypes()), Received(last, GattTypes()), address);
  }

  lemma AboutOne(m: Msg, address: nat)
    ensures About([m], address) == if Concerns(m, address) then [m] else []
  {
    assert [m][..0] == [];
  }

  lemma {:induction false} AboutAppend(first: seq<Msg>, last: seq<Msg>, address: nat)
    ensures About(first + last, address) == About(first, address) + About(last, address)
  {
    if last == [] {
      assert first + last == first;
    } else {
      var n := |last| - 1;
      assert (first + last)[..|first| + n] == first + last[..n];
      AboutAppend(first, last[..n], address);
    }
  }

  // ----- BluetoothGATTRead, BluetoothGATTWrite and BluetoothGATTNotify -----

  datatype AnswerReply =
    | Answered(bytes: seq<byte>) | AnswerFailed(code: int) | AnswerSendFailed | AnswerTimedOut | AnswerClosed

  /** The answer to the request, or the error, for this device and handle. */
  predicate Answers(m: Msg, address: nat, handle: uint32) {
    match m
    case GattAnswer(_, a, h, _) => a == address && h == handle
    case GattError(a, h, _) => a == address && h == handle
    case _ => false
  }

  function Matching(ms: seq<Msg>, address: nat, handle: uint32): (r: seq<Msg>)
    ensures forall m <- r :: m.GattAnswer? || m.GattError?
  {
    if ms == [] then []
    else
      var n := |ms| - 1;
      Matching(ms[..n], address, handle) + if Answers(ms[n], address, handle) then [ms[n]] else []
  }

  /** What the request with this response type gets to see for this device and handle. */
  function AnswerTraffic(events: seq<Event>, respType: uint32, address: nat, handle: uint32): (r: seq<Msg>)
    ensures forall m <- r :: m.GattAnswer? || m.GattError?
  {
    Matching(Received(events, {respType, GATT_ERROR_ID}), address, handle)
  }

  lemma {:induction false} MatchingAppend(first: seq<Msg>, last: seq<Msg>, address: nat, handle: uint32)
    ensures Matching(first + last, address, handle) ==
            Matching(first, address, handle) + Matching(last, address, handle)
  {
    if last == [] {
      assert first + last == first;
    } else {
      var before := last[..|last| - 1];
      assert (first + last)[..|first + last| - 1] == first + before;
      MatchingAppend(first, before, address, handle);
    }
  }

  lemma AnswerTrafficAppend(first: seq<Event>, last: seq<Event>, respType: uint32, address: nat, handle: uint32)
    ensures AnswerTraffic(first + last, respType, address, handle) ==
            AnswerTraffic(first, respType, address, handle) + AnswerTraffic(last, respType, address, handle)
  {
    var types := {respType, GATT_ERROR_ID};
    ReceivedAppend(first, last, types);
    MatchingAppend(Received(first, types), Received(last, types), address, handle);
  }

  lemma AnswerTrafficOfOne(m: Msg, respType: uint32, address: nat, handle: uint32)
    requires Typed(m) && respType in GATT_ANSWER_IDS
    ensures AnswerTraffic([Deliver(m)], respType, address, handle) ==
            if ((m.GattAnswer? && m.msgType == respType) || m.GattError?) && m.address == address && m.handle == handle
            then [m] else []
  {
    ReceivedStep([], Deliver(m), {respType, GATT_ERROR_ID});
    AnswersByType(m, respType, address, handle);
    if TypeOf(m) in {respType, GATT_ERROR_ID} {
      MatchingOne(m, address, handle);
    } else {
      assert Matching([], address, handle) == [];
    }
  }

  lemma AnswersByType(m: Msg, respType: uint32, address: nat, handle: uint32)
    requires Typed(m) && respType in GATT_ANSWER_IDS
    ensures TypeOf(m) in {respType, GATT_ERROR_ID} && Answers(m, address, handle) <==>
            ((m.GattAnswer? && m.msgType == respType) || m.GattError?) && m.address == address && m.handle == handle
  {
    assert GATT_ERROR_ID !in GATT_ANSWER_IDS;
    if !m.GattAnswer? && !m.GattError? {
      assert !Answers(m, address, handle);
    }
  }

  lemma MatchingOne(m: Msg, address: nat, handle: uint32)
    ensures Matching([m], address, handle) == if Answers(m, address, handle) then [m] else []
  {
    assert [m][..0] == [];
  }

  /**
   An answer to this kind of request, or an error, counts in its place if it is for this address and this handle;
   for another address or another handle, and for any other message, nothing changes.
   */
  lemma AnswersByFields(first: seq<Event>, m: Msg, last: seq<Event>, respType: uint32, address: nat, handle: uint32)
    requires Typed(m) && respType in GATT_ANSWER_IDS
    ensures var before, after := AnswerTraffic(first, respType, address, handle),
                                 AnswerTraffic(last, respType, address, handle);
            AnswerTraffic(first + [Deliver(m)] + last, respType, address, handle) ==
            if ((m.GattAnswer? && m.msgType == respType) || m.GattError?) && m.address == address && m.handle == handle
            then before + [m] + after
            else before + after
  {
    AnswerTrafficAppend(first + [Deliver(m)], last, respType, address, handle);
    AnswerTrafficAppend(first, [Deliver(m)], respType, address, handle);
    AnswerTrafficOfOne(m, respType, address, handle);
  }

  /** How many answers the channel, of capacity one, and the caller take between them. */
  function Capacity(sendOk: bool, wake: Wake): nat {
    if sendOk && wake.Arrived? then 2 else 1
  }

  function AnswerTo(matching: seq<Msg>, sendOk: bool, wake: Wake): AnswerReply
    requires sendOk && wake.Arrived? ==> matching != []
    requires forall m <- matching :: m.GattAnswer? || m.GattError?
  {
    if !sendOk then AnswerSendFailed
    else match wake
      case Arrived => if matching[0].GattAnswer? then Answered(matching[0].bytes) else AnswerFailed(matching[0].code)
      case TimerFired => AnswerTimedOut
      case ConnectionClosed => AnswerClosed
  }

  function AnswerHandlers(respType: uint32): seq<(uint32, Handler)> {
    [(respType, Waiter("BluetoothGATT")), (GATT_ERROR_ID, Waiter("BluetoothGATT"))]
  }

  lemma AnswerHandlersWanted(respType: uint32)
    requires respType != GATT_ERROR_ID
    ensures var wanted := AnswerHandlers(respType);
            Wanted(wanted) && WantedTypes(wanted) == {respType, GATT_ERROR_ID} && WantedListed(wanted) == {}
  {
    var wanted := AnswerHandlers(respType);
    assert wanted[0] in wanted && wanted[1] in wanted;
  }

  /**
   A GATT read, or a write that wants a response. The handlers send into the channel without a default case,
   so unlike the one of RequestResponse they can keep the read loop waiting for ever: exactly when more
   answers match than the channel and the caller take. Otherwise the first one is returned.
   */
  method BluetoothGATTReadOrWrite(router: Router<Handler>, registry: EntityRegistry, respType: uint32,
                                  address: nat, handle: uint32, events: seq<Event>, sendOk: bool, wake: Wake)
    returns (reply: AnswerReply, stuck: bool)
    requires Undisturbed(router, registry, 2, events) && AllTyped(events) && respType in {GATT_READ_ID, GATT_WRITE_ID}
    requires sendOk && wake.Arrived? ==> AnswerTraffic(events, respType, address, handle) != []
    modifies router, registry, registry.objects
    ensures stuck <==> |AnswerTraffic(events, respType, address, handle)| > Capacity(sendOk, wake)
    ensures reply == AnswerTo(AnswerTraffic(events, respType, address, handle), sendOk, wake)
    ensures registry.Valid()
    ensures !stuck ==> LeavesNoTrace(old(WorldOf(router, registry)), 2, events, {}, WorldOf(router, registry))
  {
    AnswerHandlersWanted(respType);
    var calls := Collect(router, registry, AnswerHandlers(respType), events);
    reply, stuck := RunAnswerHandlers(calls, address, handle, sendOk, wake);
  }

  function NotifyHandlers(withData: bool): seq<(uint32, Handler)> {
    AnswerHandlers(GATT_NOTIFY_ID) + if withData then [(GATT_NOTIFY_DATA_ID, Waiter("BluetoothGATT"))] else []
  }

  lemma NotifyHandlersWanted(withData: bool)
    ensures var wanted := NotifyHandlers(withData);
            && Wanted(wanted) && WantedListed(wanted) == {} && {GATT_NOTIFY_ID, GATT_ERROR_ID} <= WantedTypes(wanted)
            && |wanted| == (if withData then 3 else 2) && (withData ==> wanted[2].0 == GATT_NOTIFY_DATA_ID)
  {
    var wanted := NotifyHandlers(withData);
    assert wanted[0] in wanted && wanted[1] in wanted;
  }

  /**
   Enabling or disabling notifications. The handler for the data stays registered when the device agreed, and
   only then.
   */
  method BluetoothGATTNotify(router: Router<Handler>, registry: EntityRegistry, address: nat, handle: uint32,
                             withData: bool, events: seq<Event>, sendOk: bool, wake: Wake)
    returns (reply: AnswerReply, stuck: bool, dataId: Option<nat>)
    requires Undisturbed(router, registry, if withData then 3 else 2, events) && AllTyped(events)
    requires sendOk && wake.Arrived? ==> AnswerTraffic(events, GATT_NOTIFY_ID, address, handle) != []
    modifies router, registry, registry.objects
    ensures stuck <==> |AnswerTraffic(events, GATT_NOTIFY_ID, address, handle)| > Capacity(sendOk, wake)
    ensures reply == AnswerTo(AnswerTraffic(events, GATT_NOTIFY_ID, address, handle), sendOk, wake)
    ensures dataId.Some? <==> withData && reply.Answered?
    ensures registry.Valid()
    ensures !stuck && dataId == None ==>
              LeavesNoTrace(old(WorldOf(router, registry)), if withData then 3 else 2, events, {},
                            WorldOf(router, registry))
    ensures !stuck && dataId.Some? ==>
              && dataId.value in router.State().Live(GATT_NOTIFY_DATA_ID)
              && LeavesNoTrace(old(WorldOf(router, registry)), 3, events, {},
                               World(router.State().Without({dataId.value}), registry.log))
  {
    NotifyHandlersWanted(withData);
    var regs, calls;
    ghost var w;
    regs, calls, w := Listen(router, registry, NotifyHandlers(withData), events);
    var mine := Only(calls, {GATT_NOTIFY_ID, GATT_ERROR_ID});
    SelectReceived(events, WantedTypes(NotifyHandlers(withData)), {GATT_NOTIFY_ID, GATT_ERROR_ID});
    reply, stuck := RunAnswerHandlers(mine, address, handle, sendOk, wake);
    if withData && reply.Answered? {
      dataId := Some(regs[2].id);
      LeaveAllButLast(router, registry, regs, w);
    } else {
      dataId := None;
      Leave(router, registry, regs, w);
    }
  }

  method LeaveAllButLast(router: Router<Handler>, registry: EntityRegistry, regs: seq<Reg>, ghost w: World)
    requires Tracks(router, registry, regs, w) && ForCall(regs) && |regs| == 3
    modifies router
    ensures regs[2].id in router.State().Live(regs[2].t)
    ensures router.State().Without({regs[2].id}).Same(w.table) && registry.Valid() && registry.log == w.log
  {
    OwnsFirst(router.State(), regs, 2);
    RemoveAll(router, regs[..2]);
    KeptOne(old(router.State()), router.State(), regs);
  }

  /** The messages that the handlers of the given types were called with. */
  method Only(calls: seq<Msg>, types: set<uint32>) returns (mine: seq<Msg>)
    ensures mine == Select(calls, types)
  {
    mine := [];
    for i := 0 to |calls|
      invariant mine == Select(calls[..i], types)
    {
      SelectStep(calls, i, types);
      if TypeOf(calls[i]) in types { mine := mine + [calls[i]]; }
    }
    assert calls[..|calls|] == calls;
  }

  lemma OwnsFirst(t: Table<Handler>, regs: seq<Reg>, n: nat)
    requires Owns(t, regs) && Distinct(regs) && n <= |regs|
    ensures Owns(t, regs[..n])
  {
    forall ty, id | id in t.Live(ty) && id in Ids(regs[..n]) ensures Reg(ty, id, t.Live(ty)[id]) in regs[..n] {
      var i :| 0 <= i < n && regs[i].id == id;
      assert regs[i] in regs && id in Ids(regs);
      var j :| 0 <= j < |regs| && regs[j] == Reg(ty, id, t.Live(ty)[id]);
      assert i == j && regs[..n][i] == regs[i];
    }
  }

  /** After all but the last of our handlers were removed, the last one is all that is left of ours. */
  lemma KeptOne(ran: Table<Handler>, after: Table<Handler>, regs: seq<Reg>)
    requires Owns(ran, regs) && Distinct(regs) && |regs| == 3
    requires after.Same(ran.Without(Ids(regs[..2])))
    ensures regs[2].id in after.Live(regs[2].t)
    ensures after.Without({regs[2].id}).Same(ran.Without(Ids(regs)))
  {
    var id := regs[2].id;
    assert Ids(regs) == Ids(regs[..2]) + {id} by { assert regs == regs[..2] + [regs[2]]; }
    assert regs[2] in regs && id in ran.Live(regs[2].t);
    assert id !in Ids(regs[..2]);
    forall ty ensures after.Without({id}).Live(ty) == ran.Without(Ids(regs)).Live(ty) {
      assert after.Live(ty) == ran.Without(Ids(regs[..2])).Live(ty) == ran.Live(ty) - Ids(regs[..2]);
      assert after.Without({id}).Live(ty) == after.Live(ty) - {id};
      assert ran.Live(ty) - Ids(regs[..2]) - {id} == ran.Live(ty) - Ids(regs);
    }
  }

  /** The closures, run by the read loop, against the one receive of the caller. */
  method RunAnswerHandlers(calls: seq<Msg>, address: nat, handle: uint32, sendOk: bool, wake: Wake)
    returns (reply: AnswerReply, stuck: bool)
    requires sendOk && wake.Arrived? ==> Matching(calls, address, handle) != []
    ensures stuck <==> |Matching(calls, address, handle)| > Capacity(sendOk, wake)
    ensures reply == AnswerTo(Matching(calls, address, handle), sendOk, wake)
  {
    var ch: Option<Msg>, received: Option<Msg> := None, None;
    var receives := sendOk && wake.Arrived?;
    stuck := false;
    var i := 0;
    while i < |calls| && !stuck
      invariant i <= |calls|
      invariant var matching := Matching(calls[..i], address, handle);
                && received == (if receives && |matching| > 1 then Some(matching[0]) else None)
                && ch == (if matching == [] then None else Some(matching[if received == None then 0 else 1]))
                && (stuck <==> |matching| > Capacity(sendOk, wake))
    {
      MatchingStep(calls, i, address, handle);
      if Answers(calls[i], address, handle) {
        if ch.Some? && receives && received == None {
          received, ch := ch, None;
        }
        if ch.Some? { stuck := true; } else { ch := Some(calls[i]); }
      }
      i := i + 1;
    }
    MatchingPrefix(calls, i, address, handle);
    assert calls[..|calls|] == calls;
    if !sendOk { return AnswerSendFailed, stuck; }
    match wake {
      case Arrived =>
        var m := if received.Some? then received.value else ch.value;
        assert m in Matching(calls, address, handle);
        reply :=
          match m
          case GattAnswer(_, _, _, bytes) => Answered(bytes)
          case GattError(_, _, code) => AnswerFailed(code);
      case TimerFired => reply := AnswerTimedOut;
      case ConnectionClosed => reply := AnswerClosed;
    }
  }

  lemma MatchingStep(ms: seq<Msg>, i: nat, address: nat, handle: uint32)
    requires i < |ms|
    ensures Matching(ms[..i + 1], address, handle) ==
            Matching(ms[..i], address, handle) + if Answers(ms[i], address, handle) then [ms[i]] else []
  {
    assert ms[..i + 1][..i] == ms[..i];
  }

  lemma {:induction false} MatchingPrefix(ms: seq<Msg>, i: nat, address: nat, handle: uint32)
    requires i <= |ms|
    ensures Matching(ms[..i], address, handle) <= Matching(ms, address, handle)
    decreases |ms| - i
  {
    if i < |ms| {
      MatchingStep(ms, i, address, handle);
      MatchingPrefix(ms, i + 1, address, handle);
    } else {
      assert ms[..i] == ms;
    }
  }
}
