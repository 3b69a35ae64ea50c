/**
 From bytes to cached states: frames are read from either transport, turned into messages and dispatched,
 while the rest of the program registers and removes handlers.
 */
module ReadLoop {
  import opened Bytes
  import opened Codec
  import opened Messages
  import opened Replay
  import opened Registry
  import opened Router
  import opened Handlers
  import opened Protobufs
  import opened Streams
  import CodecIO
  import Noise
  import NoiseIO

  // ----- Either transport -----

  datatype Framer = Plain(r: Stream) | Encrypted(nt: NoiseIO.NoiseTransport)
  {
    ghost function Source(): Stream {
      match this
      case Plain(r) => r
      case Encrypted(nt) => nt.r
    }

    /** The connection is set up: an encrypted one has been through its handshake. */
    ghost predicate Ready()
      reads if Encrypted? then {nt, nt.r} else {r}
    {
      match this
      case Plain(r) => r.Valid()
      case Encrypted(nt) => nt.decryptCS != null && nt.r.Valid()
    }

    /** What reading changes. */
    ghost function Cursor(): set<object>
      requires Ready()
      reads if Encrypted? then {nt, nt.r} else {r}
    {
      match this
      case Plain(r) => {r}
      case Encrypted(nt) => {nt.r, nt.decryptCS}
    }

    /** The frames ahead, up to the first error. */
    ghost function Frames(): seq<Frame>
      requires Ready()
      reads if Encrypted? then {nt, nt.r} else {r}
      reads Cursor()
    {
      match this
      case Plain(r) => DecodeAll(r.Unread(), r.end).frames
      case Encrypted(nt) => Noise.ReceiveAll(nt.decryptCS.c, nt.decryptCS.n, nt.r.Unread(), nt.r.end)
    }

    /** Takes the first of them; nothing when there is none, which is an error. */
    method ReadFrame() returns (f: Option<Frame>)
      requires Ready()
      modifies Cursor()
      ensures Ready() && Cursor() == old(Cursor())
      ensures old(Frames()) == if f.Some? then [f.value] + Frames() else []
      ensures f.Some? ==> |Source().Unread()| < |old(Source().Unread())|
    {
      match this {
        case Plain(r) =>
          DecodeAllFirst(r.Unread(), r.end);
          var plain, _, _ := CodecIO.ReadFrame(r);
          f := plain;
        case Encrypted(nt) =>
          Noise.ReceiveAllStep(nt.decryptCS.c, nt.decryptCS.n, nt.r.Unread(), nt.r.end);
          var received, _ := nt.ReadFrame();
          f := received;
      }
    }
  }

  lemma DecodeAllFirst(s: seq<byte>, end: ReadError)
    ensures DecodeAll(s, end).frames ==
            match Decode(s, end)
            case Ok(f, rest) => [f] + DecodeAll(rest, end).frames
            case Err(_, _) => []
  {}

  /** One message, or nothing when its type is not known; not ok when the stream or the body ends the loop. */
  method RecvMessage(framer: Framer, pb: Protobuf) returns (m: Option<Msg>, ok: bool)
    requires framer.Ready()
    modifies framer.Cursor()
    ensures framer.Ready() && framer.Cursor() == old(framer.Cursor())
    ensures (m.Some? ==> ok) && (ok ==> |framer.Source().Unread()| < |old(framer.Source().Unread())|)
    ensures pb.Understood(old(framer.Frames())) ==
            (if m.Some? then [m.value] else []) + (if ok then pb.Understood(framer.Frames()) else [])
  {
    var f := framer.ReadFrame();
    if f == None { return None, false; }
    assert ([f.value] + framer.Frames())[1..] == framer.Frames();
    if f.value.msgType !in pb.known { return None, true; }
    m := pb.unmarshal(f.value.msgType, f.value.data);
    ok := m.Some?;
  }

  // ----- The loop -----

  /** The history that the loop makes: before it dispatches the i-th message, others do what `others` says. */
  function Trace(ms: seq<Msg>, others: nat -> seq<Action<Handler>>): seq<Event> {
    if ms == [] then []
    else var n := |ms| - 1; Trace(ms[..n], others) + OtherEvents(others(n)) + [Deliver(ms[n])]
  }

  ghost predicate AllProper(others: nat -> seq<Action<Handler>>) {
    forall i: nat :: forall a <- others(i) :: Proper(a)
  }

  lemma TraceStep(w: World, ms: seq<Msg>, m: Msg, others: nat -> seq<Action<Handler>>)
    ensures var v := HappenAll(w, Trace(ms, others), {});
            HappenAll(w, Trace(ms + [m], others), {}) ==
            Happen(v.(table := ApplyAll(v.table, others(|ms|))), Deliver(m), {})
  {
    assert (ms + [m])[..|ms|] == ms;
    HappenOneMore(w, Trace(ms, others) + OtherEvents(others(|ms|)), Deliver(m), {});
    HappenAppend(w, Trace(ms, others), OtherEvents(others(|ms|)), {});
    HappenOthers(HappenAll(w, Trace(ms, others), {}), others(|ms|), {});
  }

  /** Table and registry have been through the history of the messages dispatched so far. */
  ghost predicate UpTo(router: Router<Handler>, registry: EntityRegistry, start: World, dispatched: seq<Msg>,
                       others: nat -> seq<Action<Handler>>)
    reads router, registry, registry.objects
  {
    && registry.Valid() && Wired(router.State())
    && WorldOf(router, registry) == HappenAll(start, Trace(dispatched, others), {})
  }

  method DispatchNext(router: Router<Handler>, registry: EntityRegistry, ghost start: World, ghost earlier: seq<Msg>,
                      m: Msg, others: nat -> seq<Action<Handler>>, i: nat)
    requires UpTo(router, registry, start, earlier, others) && AllProper(others) && i == |earlier|
    modifies router, registry, registry.objects
    ensures UpTo(router, registry, start, earlier + [m], others) && fresh(registry.objects - old(registry.objects))
  {
    TraceStep(start, earlier, m, others);
    OthersAct(router, others(i));
    DeliverPlain(WorldOf(router, registry), m);
    var _ := HandleMessage(router, registry, m);
  }

  method OthersAct(router: Router<Handler>, actions: seq<Action<Handler>>)
    requires Wired(router.State()) && forall a <- actions :: Proper(a)
    modifies router
    ensures Wired(router.State()) && router.State() == ApplyAll(old(router.State()), actions)
  {
    ActionsKeepWired(router.State(), actions);
    router.Run(actions);
  }

  /** One turn of the loop: receives, and dispatches what it got. */
  method Turn(framer: Framer, router: Router<Handler>, registry: EntityRegistry, pb: Protobuf,
              ghost start: World, ghost earlier: seq<Msg>, others: nat -> seq<Action<Handler>>, i: nat)
    returns (got: seq<Msg>, running: bool)
    requires framer.Ready() && UpTo(router, registry, start, earlier, others) && AllProper(others) && i == |earlier|
    modifies framer.Cursor(), router, registry, registry.objects
    ensures framer.Ready() && framer.Cursor() == old(framer.Cursor())
    ensures UpTo(router, registry, start, earlier + got, others) && fresh(registry.objects - old(registry.objects))
    ensures pb.Understood(old(framer.Frames())) == got + if running then pb.Understood(framer.Frames()) else []
    ensures running ==> |framer.Source().Unread()| < |old(framer.Source().Unread())|
  {
    var m;
    m, running := Receive(framer, router, registry, pb, start, earlier, others);
    if m == None {
      assert earlier + [] == earlier;
      return [], running;
    }
    got := [m.value];
    DispatchBeside(framer, router, registry, start, earlier, m.value, others, i);
  }

  /** Receiving leaves table and registry alone. */
  method Receive(framer: Framer, router: Router<Handler>, registry: EntityRegistry, pb: Protobuf,
                 ghost start: World, ghost earlier: seq<Msg>, others: nat -> seq<Action<Handler>>)
    returns (m: Option<Msg>, ok: bool)
    requires framer.Ready() && UpTo(router, registry, start, earlier, others)
    modifies framer.Cursor()
    ensures framer.Ready() && framer.Cursor() == old(framer.Cursor())
    ensures (m.Some? ==> ok) && (ok ==> |framer.Source().Unread()| < |old(framer.Source().Unread())|)
    ensures pb.Understood(old(framer.Frames())) ==
            (if m.Some? then [m.value] else []) + (if ok then pb.Understood(framer.Frames()) else [])
    ensures UpTo(router, registry, start, earlier, others) && registry.objects == old(registry.objects)
  {
    m, ok := RecvMessage(framer, pb);
    assert WorldOf(router, registry) == old(WorldOf(router, registry)) && registry.objects == old(registry.objects);
  }

  /** Dispatching leaves the connection alone. */
  method DispatchBeside(framer: Framer, router: Router<Handler>, registry: EntityRegistry,
                        ghost start: World, ghost earlier: seq<Msg>,
                        m: Msg, others: nat -> seq<Action<Handler>>, i: nat)
    requires framer.Ready() && UpTo(router, registry, start, earlier, others) && AllProper(others) && i == |earlier|
    modifies router, registry, registry.objects
    ensures UpTo(router, registry, start, earlier + [m], others) && fresh(registry.objects - old(registry.objects))
    ensures framer.Ready() && framer.Cursor() == old(framer.Cursor())
    ensures framer.Frames() == old(framer.Frames()) && framer.Source().Unread() == old(framer.Source().Unread())
  {
    DispatchNext(router, registry, start, earlier, m, others, i);
    match framer {
      case Plain(r) => PlainStays(r);
      case Encrypted(nt) => EncryptedStays(nt);
    }
  }

  twostate lemma PlainStays(r: Stream)
    requires old(r.Valid()) && unchanged(r)
    ensures Framer.Plain(r).Ready() && Framer.Plain(r).Frames() == old(Framer.Plain(r).Frames())
    ensures r.Unread() == old(r.Unread())
  {}

  twostate lemma EncryptedStays(nt: NoiseIO.NoiseTransport)
    requires old(Encrypted(nt).Ready()) && unchanged(nt) && unchanged(nt.r) && unchanged(old(nt.decryptCS))
    ensures Encrypted(nt).Ready() && Encrypted(nt).Cursor() == old(Encrypted(nt).Cursor())
    ensures Encrypted(nt).Frames() == old(Encrypted(nt).Frames()) && nt.r.Unread() == old(nt.r.Unread())
  {}

  /**
   Reads until the first error. Whatever pieces the bytes come in, the messages dispatched are those of the frames
   ahead; table and registry go through the history that these messages make together with what others
   do, in which a listing and a state subscription each take what is dispatched while they are there.
   */
  method Loop(framer: Framer, router: Router<Handler>, registry: EntityRegistry, pb: Protobuf,
              others: nat -> seq<Action<Handler>>)
    returns (dispatched: seq<Msg>)
    requires framer.Ready() && registry.Valid() && Wired(router.State()) && AllProper(others)
    modifies framer.Cursor(), router, registry, registry.objects
    ensures framer.Ready() && registry.Valid() && Wired(router.State())
    ensures dispatched == pb.Understood(old(framer.Frames()))
    ensures WorldOf(router, registry) == HappenAll(old(WorldOf(router, registry)), Trace(dispatched, others), {})
  {
    dispatched := [];
    var running := true;
    ghost var start := WorldOf(router, registry);
    ghost var ahead := pb.Understood(framer.Frames());
    while running
      invariant framer.Ready() && framer.Cursor() == old(framer.Cursor())
      invariant UpTo(router, registry, start, dispatched, others)
      invariant fresh(registry.objects - old(registry.objects))
      invariant ahead == if running then pb.Understood(framer.Frames()) else []
      invariant pb.Understood(old(framer.Frames())) == dispatched + ahead
      decreases running, |framer.Source().Unread()|
    {
      ghost var all := ahead;
      var got;
      got, running := Turn(framer, router, registry, pb, start, dispatched, others, |dispatched|);
      ahead := if running then pb.Understood(framer.Frames()) else [];
      assert all == got + ahead;
      Associate(dispatched, got, ahead);
      dispatched := dispatched + got;
    }
  }

  // ----- From the wire to the cache -----

  /** What a device sends on a plain connection is what is read, whatever the pieces. */
  lemma {:induction false} PlainWire(pb: Protobuf, ms: seq<Msg>, end: ReadError)
    requires pb.RoundTrips() && (forall m <- ms :: Canonical(m)) && Sendable(pb.FramesOf(ms))
    ensures pb.Understood(DecodeAll(EncodeAll(pb.FramesOf(ms)), end).frames) == pb.OfKnownTypes(ms)
  {
    var fs := pb.FramesOf(ms);
    RoundTripAll(fs, [], end);
    assert EncodeAll(fs) + [] == EncodeAll(fs) && fs + [] == fs;
    pb.UnderstoodAll(ms);
  }

  /** And so on an encrypted one, from the counter that both sides have reached. */
  lemma {:induction false} SealedWire(pb: Protobuf, c: Noise.Cipher, n: nat, ms: seq<Msg>, end: ReadError)
    requires pb.RoundTrips() && (forall m <- ms :: Canonical(m)) && Noise.Sealable(pb.FramesOf(ms))
    requires c.Ideal() && n + |ms| <= Noise.MAX_NONCE + 1
    ensures pb.Understood(Noise.ReceiveAll(c, n, Noise.SealAll(c, n, pb.FramesOf(ms)), end)) == pb.OfKnownTypes(ms)
  {
    Noise.ReceiveAllSealed(c, n, pb.FramesOf(ms), end);
    pb.UnderstoodAll(ms);
  }

  function Deliveries(ms: seq<Msg>): seq<Event> {
    seq(|ms|, i requires 0 <= i < |ms| => Deliver(ms[i]))
  }

  lemma {:induction false} WatchTrace(h: Option<Held>, ms: seq<Msg>, others: nat -> seq<Action<Handler>>,
                                      d: Domain, k: uint32, n: nat)
    ensures Watch(h, Trace(ms, others), d, k, n) == Watch(h, Deliveries(ms), d, k, n)
  {
    if ms != [] {
      var before, m, acts := ms[..|ms| - 1], ms[|ms| - 1], OtherEvents(others(|ms| - 1));
      WatchTrace(h, before, others, d, k, n);
      assert Deliveries(ms)[..|ms| - 1] == Deliveries(before);
      var trace := Trace(before, others) + acts;
      assert Trace(ms, others)[..|trace|] == trace;
      WatchAppend(h, Trace(before, others), acts, d, k, n);
      WatchOthers(Watch(h, Trace(before, others), d, k, n), acts, d, k, n);
    }
  }

  lemma {:induction false} WatchOthers(h: Option<Held>, events: seq<Event>, d: Domain, k: uint32, n: nat)
    requires forall i :: 0 <= i < |events| ==> events[i].Other?
    ensures Watch(h, events, d, k, n) == h
  {
    if events != [] { WatchOthers(h, events[..|events| - 1], d, k, n); }
  }

  /**
   From the wire to the cache: when the loop has dispatched what a device sent, the registry holds for an entity
   what the messages say about it, whatever other messages there were and whatever others did meanwhile, if n
   subscriptions were there whenever a state of it came and somebody listed whenever a listing of it came.
   */
  lemma {:induction false} WireToCache(pb: Protobuf, w: World, fs: seq<Frame>, ms: seq<Msg>,
                                       others: nat -> seq<Action<Handler>>, d: Domain, k: uint32, n: nat)
    requires pb.Understood(fs) == pb.OfKnownTypes(ms)
    requires Served(w, Trace(pb.OfKnownTypes(ms), others), {}, d, k, n)
    ensures View(HappenAll(w, Trace(pb.Understood(fs), others), {}).log, d, k) ==
            Watch(View(w.log, d, k), Deliveries(pb.OfKnownTypes(ms)), d, k, n)
  {
    EntityFollowsEvents(w, Trace(pb.OfKnownTypes(ms), others), {}, d, k, n);
    WatchTrace(View(w.log, d, k), pb.OfKnownTypes(ms), others, d, k, n);
  }

  /** Nobody registers or removes anything. */
  function Nobody(i: nat): seq<Action<Handler>> {
    []
  }

  lemma {:induction false} QuietTrace(ms: seq<Msg>)
    ensures Trace(ms, Nobody) == Deliveries(ms)
  {
    if ms != [] {
      QuietTrace(ms[..|ms| - 1]);
      assert OtherEvents(Nobody(|ms| - 1)) == [];
    }
  }

  lemma {:induction false} DeliveriesKeepTable(w: World, ms: seq<Msg>)
    ensures HappenAll(w, Deliveries(ms), {}).table == w.table
  {
    if ms != [] {
      DeliveriesKeepTable(w, ms[..|ms| - 1]);
      assert Deliveries(ms)[..|ms| - 1] == Deliveries(ms[..|ms| - 1]);
    }
  }

  /** While nobody registers or removes anything, it is enough that the handlers are there when the reading starts. */
  lemma ServedWhileQuiet(w: World, ms: seq<Msg>, d: Domain, k: uint32, n: nat)
    requires forall m <- ms :: ServedAt(w.table, Deliver(m), {}, d, k, n)
    ensures Served(w, Trace(ms, Nobody), {}, d, k, n)
  {
    QuietTrace(ms);
    var events := Deliveries(ms);
    forall i | 0 <= i < |events|
      ensures ServedAt(HappenAll(w, events[..i], {}).table, events[i], {}, d, k, n)
    {
      assert events[..i] == Deliveries(ms[..i]) && ms[i] in ms;
      DeliveriesKeepTable(w, ms[..i]);
    }
  }

  /** A listing followed by states: the entity has the last listing's fields and its later states, each of them once. */
  lemma {:induction false} ListingThenStates(pb: Protobuf, w: World, fs: seq<Frame>, ms: seq<Msg>,
                                             others: nat -> seq<Action<Handler>>, d: Domain, k: uint32, j: nat)
    requires pb.Understood(fs) == pb.OfKnownTypes(ms)
    requires Served(w, Trace(pb.OfKnownTypes(ms), others), {}, d, k, 1)
    requires j < |pb.OfKnownTypes(ms)| && Registers(Listed(pb.OfKnownTypes(ms)[j]), Slot(d, k))
    requires forall m <- pb.OfKnownTypes(ms)[j + 1..] :: !Registers(Listed(m), Slot(d, k))
    ensures var known := pb.OfKnownTypes(ms);
            View(HappenAll(w, Trace(pb.Understood(fs), others), {}).log, d, k) ==
            Some(Held(known[j], StatesIn(Deliveries(known[j + 1..]), d, k)))
  {
    WireToCache(pb, w, fs, ms, others, d, k, 1);
    ListedDelivery(View(w.log, d, k), pb.OfKnownTypes(ms), j, d, k);
  }

  lemma ListedDelivery(h: Option<Held>, ms: seq<Msg>, j: nat, d: Domain, k: uint32)
    requires j < |ms| && Registers(Listed(ms[j]), Slot(d, k))
    requires forall m <- ms[j + 1..] :: !Registers(Listed(m), Slot(d, k))
    ensures Watch(h, Deliveries(ms), d, k, 1) == Some(Held(ms[j], StatesIn(Deliveries(ms[j + 1..]), d, k)))
  {
    var events, later := Deliveries(ms), Deliveries(ms[j + 1..]);
    assert events[j + 1..] == later;
    forall i | 0 <= i < |later| ensures !Resets(later[i], d, k) {
      assert later[i].m in ms[j + 1..];
    }
    WatchListed(h, events, j, d, k, 1);
    RepeatOnce(StatesIn(later, d, k));
  }

  // ----- What was sent last is what is cached -----

  /** By its fields: m is the last state of the entity among these messages. */
  predicate LastState(ms: seq<Msg>, l: nat, d: Domain, k: uint32) {
    && l < |ms| && ms[l].EntityState? && ms[l].domain == d && ms[l].key == k
    && forall i :: l < i < |ms| ==> !(ms[i].EntityState? && ms[i].domain == d && ms[i].key == k)
  }

  lemma StatesInStep(ms: seq<Msg>, m: Msg, d: Domain, k: uint32)
    ensures StatesIn(Deliveries(ms + [m]), d, k) ==
            StatesIn(Deliveries(ms), d, k) + if Updates(Updated(m), d, k) then [m] else []
  {
    assert Deliveries(ms + [m]) == Deliveries(ms) + [Deliver(m)];
    assert (Deliveries(ms) + [Deliver(m)])[..|ms|] == Deliveries(ms);
  }

  lemma {:induction false} LastStateIsLast(ms: seq<Msg>, l: nat, d: Domain, k: uint32)
    requires d !in {Button, Camera} && LastState(ms, l, d, k)
    ensures var states := StatesIn(Deliveries(ms), d, k); states != [] && states[|states| - 1] == ms[l]
    decreases |ms|
  {
    var n := |ms| - 1;
    StatesInStep(ms[..n], ms[n], d, k);
    assert ms == ms[..n] + [ms[n]];
    UpdatesByFields(ms[n], d, k);
    if l < n {
      LastStateIsLast(ms[..n], l, d, k);
    }
  }

  lemma {:induction false} PlainStates(ms: seq<Msg>, d: Domain, k: uint32)
    requires d != Camera
    ensures forall m <- StatesIn(Deliveries(ms), d, k) :: m.EntityState?
  {
    if ms != [] {
      var n := |ms| - 1;
      PlainStates(ms[..n], d, k);
      StatesInStep(ms[..n], ms[n], d, k);
      assert ms == ms[..n] + [ms[n]];
    }
  }

  lemma LastStateCounts(ms: seq<Msg>, l: nat, d: Domain, k: uint32)
    requires d !in {Button, Camera} && LastState(ms, l, d, k)
    ensures var c := Fold(d, StatesIn(Deliveries(ms), d, k));
            && c.value == ms[l].value
            && (c.missing <==> d in {Sensor, BinarySensor, TextSensor, Number, Select} && ms[l].missing)
  {
    LastStateIsLast(ms, l, d, k);
    PlainStates(ms, d, k);
    PlainFold(d, StatesIn(Deliveries(ms), d, k));
  }

  /** By their fields: the chunks sent for a camera. */
  function ChunksOf(ms: seq<Msg>, k: uint32): (r: seq<Msg>)
    ensures forall m <- r :: m.CameraImage?
  {
    if ms == [] then []
    else var n := |ms| - 1; ChunksOf(ms[..n], k) + if ms[n].CameraImage? && ms[n].key == k then [ms[n]] else []
  }

  lemma {:induction false} ChunksAreStates(ms: seq<Msg>, k: uint32)
    ensures StatesIn(Deliveries(ms), Camera, k) == ChunksOf(ms, k)
  {
    if ms != [] {
      var n := |ms| - 1;
      ChunksAreStates(ms[..n], k);
      StatesInStep(ms[..n], ms[n], Camera, k);
      assert ms == ms[..n] + [ms[n]];
      UpdatesByFields(ms[n], Camera, k);
    }
  }

  /** The image a camera ends with: the chunks sent since the previous done one. */
  lemma ImageCounts(ms: seq<Msg>, s: nat, k: uint32)
    requires StartsImage(ChunksOf(ms, k), s)
    ensures var c, chunks := Fold(Camera, StatesIn(Deliveries(ms), Camera, k)), ChunksOf(ms, k);
            Content(c.image) == Chunks(chunks[s..]) && c.done == chunks[|chunks| - 1].done
  {
    ChunksAreStates(ms, k);
    CameraFold(ChunksOf(ms, k), s);
  }

  /** The entity holds the value of its last state, or, if it is a camera, its last image. */
  ghost predicate HoldsLast(e: Entity, ms: seq<Msg>, d: Domain, k: uint32)
    reads e
  {
    && (d !in {Button, Camera} ==> forall l: nat :: LastState(ms, l, d, k) ==>
          && e.value == ms[l].value
          && (e.missing <==> d in {Sensor, BinarySensor, TextSensor, Number, Select} && ms[l].missing))
    && (d == Camera ==> forall s: nat :: StartsImage(ChunksOf(ms, k), s) ==>
          && Content(e.imageData) == Chunks(ChunksOf(ms, k)[s..])
          && e.imageDone == ChunksOf(ms, k)[|ChunksOf(ms, k)| - 1].done)
  }

  lemma LastIsHeld(e: Entity, ms: seq<Msg>, d: Domain, k: uint32)
    requires e.Cached() == Fold(d, StatesIn(Deliveries(ms), d, k))
    ensures HoldsLast(e, ms, d, k)
  {
    if d !in {Button, Camera} {
      forall l: nat | LastState(ms, l, d, k)
        ensures e.value == ms[l].value
        ensures e.missing <==> d in {Sensor, BinarySensor, TextSensor, Number, Select} && ms[l].missing
      {
        LastStateCounts(ms, l, d, k);
      }
    }
    if d == Camera {
      forall s: nat | StartsImage(ChunksOf(ms, k), s)
        ensures Content(e.imageData) == Chunks(ChunksOf(ms, k)[s..])
        ensures e.imageDone == ChunksOf(ms, k)[|ChunksOf(ms, k)| - 1].done
      {
        ImageCounts(ms, s, k);
      }
    }
  }

  /**
   The whole way: when the loop has read the bytes of a listing and of states, interleaved with anything else, the
   cache has the entity with the fields of its last listing and with the states sent after it folded in.
   */
  lemma {:induction false} BytesToEntity(r: EntityRegistry, pb: Protobuf, w: World, ms: seq<Msg>, end: ReadError,
                      others: nat -> seq<Action<Handler>>, d: Domain, k: uint32, j: nat)
    requires pb.RoundTrips() && (forall m <- ms :: Canonical(m)) && Sendable(pb.FramesOf(ms))
    requires Served(w, Trace(pb.OfKnownTypes(ms), others), {}, d, k, 1)
    requires j < |pb.OfKnownTypes(ms)| && Registers(Listed(pb.OfKnownTypes(ms)[j]), Slot(d, k))
    requires forall m <- pb.OfKnownTypes(ms)[j + 1..] :: !Registers(Listed(m), Slot(d, k))
    requires var frames := DecodeAll(EncodeAll(pb.FramesOf(ms)), end).frames;
             r.Valid() && r.log == HappenAll(w, Trace(pb.Understood(frames), others), {}).log
    ensures var known := pb.OfKnownTypes(ms);
            && k in r.domains[d]
            && var e := r.domains[d][k];
               && known[j] == ListEntity(d, k, e.name, e.details)
               && e.Cached() == Fold(d, StatesIn(Deliveries(known[j + 1..]), d, k))
               && HoldsLast(e, known[j + 1..], d, k)
  {
    PlainWire(pb, ms, end);
    ListingThenStates(pb, w, DecodeAll(EncodeAll(pb.FramesOf(ms)), end).frames, ms, others, d, k, j);
    HeldEntry(r, d, k);
    LastIsHeld(r.domains[d][k], pb.OfKnownTypes(ms)[j + 1..], d, k);
  }

  /** Without a new listing, n subscriptions add each state n times in a row to those the entity had. */
  lemma {:induction false} StatesOnly(pb: Protobuf, w: World, fs: seq<Frame>, ms: seq<Msg>,
                                      others: nat -> seq<Action<Handler>>, d: Domain, k: uint32, n: nat)
    requires pb.Understood(fs) == pb.OfKnownTypes(ms) && View(w.log, d, k).Some?
    requires Served(w, Trace(pb.OfKnownTypes(ms), others), {}, d, k, n)
    requires forall m <- pb.OfKnownTypes(ms) :: !Registers(Listed(m), Slot(d, k))
    ensures var before := View(w.log, d, k).value;
            var states := StatesIn(Deliveries(pb.OfKnownTypes(ms)), d, k);
            View(HappenAll(w, Trace(pb.Understood(fs), others), {}).log, d, k) ==
            Some(Held(before.listing, before.states + Repeat(states, n)))
  {
    var known := pb.OfKnownTypes(ms);
    WireToCache(pb, w, fs, ms, others, d, k, n);
    forall e <- Deliveries(known) ensures !Resets(e, d, k) {
      assert e.m in known;
    }
    WatchUnlisted(View(w.log, d, k), Deliveries(known), d, k, n);
  }
}
