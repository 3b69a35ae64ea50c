/**
 What the entity cache ought to hold after a history of events, said without any cache: which
 registration counts, and what the state messages since then amount to.
 */
module Replay {
  import opened Bytes
  import opened Messages

  /** What happened to the registry: a message given to its list or its state handler, or a Clear. */
  datatype Change = Listed(msg: Msg) | Updated(msg: Msg) | Cleared

  type Log = seq<Change>

  /** The three ways in which an entity is looked up. */
  datatype Query = Slot(domain: Domain, key: uint32) | AnyDomain(key: uint32) | Named(name: string)

  /** e registers an entity that answers q. */
  predicate Registers(e: Change, q: Query) {
    && e.Listed? && e.msg.ListEntity?
    && match q
       case Slot(d, k) => e.msg.domain == d && e.msg.key == k
       case AnyDomain(k) => e.msg.key == k
       case Named(n) => e.msg.name == n
  }

  /** The last registration for q since the last Clear. */
  function LastReg(log: Log, q: Query): (i: Option<nat>)
    ensures i.Some? ==> i.value < |log| && Registers(log[i.value], q)
  {
    if log == [] then None
    else
      var n := |log| - 1;
      if log[n] == Cleared then None
      else if Registers(log[n], q) then Some(n)
      else LastReg(log[..n], q)
  }

  lemma {:induction false} LastRegIsLast(log: Log, q: Query, i: nat)
    ensures LastReg(log, q) == Some(i) <==>
              && i < |log| && Registers(log[i], q)
              && forall j :: i < j < |log| ==> log[j] != Cleared && !Registers(log[j], q)
  {
    if log != [] {
      var n := |log| - 1;
      LastRegIsLast(log[..n], q, i);
      if i < n && log[n] != Cleared && !Registers(log[n], q) {
        assert forall j :: i < j < n ==> log[..n][j] == log[j];
      }
    }
  }

  lemma {:induction false} RegisteredSince(log: Log, q: Query, i: nat)
    requires i < |log| && Registers(log[i], q) && forall j :: i < j < |log| ==> log[j] != Cleared
    ensures LastReg(log, q).Some?
  {
    var n := |log| - 1;
    if !Registers(log[n], q) {
      RegisteredSince(log[..n], q, i);
    }
  }

  /** One entity's cached state. Only some domains track a missing state; only cameras use the image. */
  datatype Cache = Cache(value: string, missing: bool, image: Option<seq<byte>>, done: bool)

  predicate TracksMissing(d: Domain) {
    d in {Sensor, BinarySensor, TextSensor, Number, Select}
  }

  function FreshCache(d: Domain): Cache {
    Cache("", TracksMissing(d), None, false)
  }

  predicate IsState(m: Msg) {
    m.EntityState? || m.CameraImage?
  }

  /** e carries a state for the entity of this domain and key. */
  predicate Updates(e: Change, d: Domain, k: uint32) {
    && e.Updated?
    && ((e.msg.EntityState? && d != Button && d != Camera && e.msg.domain == d && e.msg.key == k)
        || (e.msg.CameraImage? && d == Camera && e.msg.key == k))
  }

  /** By its fields: whose state a message is. */
  lemma UpdatesByFields(m: Msg, d: Domain, k: uint32)
    ensures m.EntityState? && m.domain !in {Button, Camera} ==>
              (Updates(Updated(m), d, k) <==> d == m.domain && k == m.key)
    ensures m.CameraImage? ==> (Updates(Updated(m), d, k) <==> d == Camera && k == m.key)
    ensures !m.EntityState? && !m.CameraImage? ==> !Updates(Updated(m), d, k)
    ensures m.EntityState? && m.domain in {Button, Camera} ==> !Updates(Updated(m), d, k)
  {}

  /** By its fields: what a message registers. */
  lemma RegistersByFields(m: Msg, d: Domain, k: uint32, n: string)
    ensures Registers(Listed(m), Slot(d, k)) <==> m.ListEntity? && m.domain == d && m.key == k
    ensures Registers(Listed(m), AnyDomain(k)) <==> m.ListEntity? && m.key == k
    ensures Registers(Listed(m), Named(n)) <==> m.ListEntity? && m.name == n
  {}

  function ApplyState(d: Domain, c: Cache, m: Msg): Cache
    requires IsState(m)
  {
    if m.EntityState? then c.(value := m.value, missing := if TracksMissing(d) then m.missing else c.missing)
    else
      var image := if c.done || c.image == None then m.data else Some(c.image.value + Content(m.data));
      c.(image := image, done := m.done)
  }

  /** A nil slice has no bytes. */
  function Content(data: Option<seq<byte>>): seq<byte> {
    if data.Some? then data.value else []
  }

  /**
   The cache of the object created by registration i: it takes the states that arrive for its domain
   and key for as long as it is the one registered there, and is frozen from then on.
   */
  function CacheOf(log: Log, i: nat): Cache
    requires i < |log| && log[i].Listed? && log[i].msg.ListEntity?
  {
    var d, k, n := log[i].msg.domain, log[i].msg.key, |log| - 1;
    if i == n then FreshCache(d)
    else if Updates(log[n], d, k) && LastReg(log[..n], Slot(d, k)) == Some(i) then
      ApplyState(d, CacheOf(log[..n], i), log[n].msg)
    else CacheOf(log[..n], i)
  }

  /** The last registration of a key in any domain is also the last one in its own domain. */
  lemma {:induction false} KeyRegIsSlotReg(log: Log, k: uint32)
    ensures LastReg(log, AnyDomain(k)).Some? ==>
              var i := LastReg(log, AnyDomain(k)).value;
              LastReg(log, Slot(log[i].msg.domain, k)) == Some(i)
    ensures LastReg(log, AnyDomain(k)).Some? <==> exists d :: LastReg(log, Slot(d, k)).Some?
  {
    if LastReg(log, AnyDomain(k)).Some? {
      var i := LastReg(log, AnyDomain(k)).value;
      LastRegIsLast(log, AnyDomain(k), i);
      LastRegIsLast(log, Slot(log[i].msg.domain, k), i);
    }
    forall d | LastReg(log, Slot(d, k)).Some? ensures LastReg(log, AnyDomain(k)).Some? {
      SlotRegHasKey(log, d, k);
    }
  }

  lemma {:induction false} SlotRegHasKey(log: Log, d: Domain, k: uint32)
    requires LastReg(log, Slot(d, k)).Some?
    ensures LastReg(log, AnyDomain(k)).Some?
  {
    var n := |log| - 1;
    if !Registers(log[n], AnyDomain(k)) {
      SlotRegHasKey(log[..n], d, k);
    }
  }

  lemma LastRegStep(log: Log, e: Change, q: Query)
    ensures LastReg(log + [e], q) ==
            if e == Cleared then None else if Registers(e, q) then Some(|log|) else LastReg(log, q)
  {
    assert (log + [e])[..|log|] == log;
  }

  lemma CacheOfStep(log: Log, e: Change, i: nat)
    requires i < |log| && log[i].Listed? && log[i].msg.ListEntity?
    ensures var d, k := log[i].msg.domain, log[i].msg.key;
            CacheOf(log + [e], i) ==
            if Updates(e, d, k) && LastReg(log, Slot(d, k)) == Some(i) then ApplyState(d, CacheOf(log, i), e.msg)
            else CacheOf(log, i)
  {
    assert (log + [e])[..|log|] == log;
  }

  /** The state messages for a domain and key after position i. */
  function StatesAfter(log: Log, i: nat, d: Domain, k: uint32): (ms: seq<Msg>)
    ensures forall m <- ms :: IsState(m)
    ensures forall m <- ms :: (d == Camera ==> m.CameraImage?) && (d != Camera ==> m.EntityState?)
  {
    if |log| <= i + 1 then []
    else
      var n := |log| - 1;
      StatesAfter(log[..n], i, d, k) + if Updates(log[n], d, k) then [log[n].msg] else []
  }

  lemma StatesAfterStep(log: Log, e: Change, i: nat, d: Domain, k: uint32)
    requires i < |log|
    ensures StatesAfter(log + [e], i, d, k) == StatesAfter(log, i, d, k) + if Updates(e, d, k) then [e.msg] else []
  {
    assert (log + [e])[..|log|] == log;
  }

  function Fold(d: Domain, ms: seq<Msg>): Cache
    requires forall m <- ms :: IsState(m)
  {
    if ms == [] then FreshCache(d)
    else ApplyState(d, Fold(d, ms[..|ms| - 1]), ms[|ms| - 1])
  }

  lemma FoldAppend(d: Domain, ms: seq<Msg>, m: Msg)
    requires (forall m' <- ms :: IsState(m')) && IsState(m)
    ensures forall m' <- ms + [m] :: IsState(m')
    ensures Fold(d, ms + [m]) == ApplyState(d, Fold(d, ms), m)
  {
    assert (ms + [m])[..|ms|] == ms;
  }

  /** The entity registered for a domain and key has every later state of that domain and key folded in. */
  lemma {:induction false} CurrentCache(log: Log, d: Domain, k: uint32)
    requires LastReg(log, Slot(d, k)).Some?
    ensures var i := LastReg(log, Slot(d, k)).value;
            CacheOf(log, i) == Fold(d, StatesAfter(log, i, d, k))
  {
    var i, n := LastReg(log, Slot(d, k)).value, |log| - 1;
    if i < n {
      CurrentCache(log[..n], d, k);
      var before := StatesAfter(log[..n], i, d, k);
      if Updates(log[n], d, k) {
        FoldAppend(d, before, log[n].msg);
      } else {
        assert StatesAfter(log, i, d, k) == before;
      }
    }
  }

  /** Outside the camera domain that is simply the last state received. */
  lemma {:induction false} PlainCache(log: Log, d: Domain, k: uint32)
    requires LastReg(log, Slot(d, k)).Some? && d != Camera
    ensures var i := LastReg(log, Slot(d, k)).value;
            var ms := StatesAfter(log, i, d, k);
            CacheOf(log, i) ==
            if ms == [] then FreshCache(d)
            else Cache(ms[|ms| - 1].value, TracksMissing(d) && ms[|ms| - 1].missing, None, false)
  {
    CurrentCache(log, d, k);
    PlainFold(d, StatesAfter(log, LastReg(log, Slot(d, k)).value, d, k));
  }

  lemma {:induction false} PlainFold(d: Domain, ms: seq<Msg>)
    requires forall m <- ms :: m.EntityState?
    ensures Fold(d, ms) ==
            if ms == [] then FreshCache(d)
            else Cache(ms[|ms| - 1].value, TracksMissing(d) && ms[|ms| - 1].missing, None, false)
  {
    if ms != [] {
      PlainFold(d, ms[..|ms| - 1]);
    }
  }

  /** The domains whose entities know that their state is missing: from the start, and as the last message says. */
  lemma MissingState(log: Log, d: Domain, k: uint32)
    requires LastReg(log, Slot(d, k)).Some? && d != Camera
    ensures var i := LastReg(log, Slot(d, k)).value;
            var ms := StatesAfter(log, i, d, k);
            CacheOf(log, i).missing <==>
              d in {Sensor, BinarySensor, TextSensor, Number, Select} && (ms == [] || ms[|ms| - 1].missing)
  {
    PlainCache(log, d, k);
  }

  function Chunks(ms: seq<Msg>): seq<byte>
    requires forall m <- ms :: m.CameraImage?
  {
    if ms == [] then [] else Chunks(ms[..|ms| - 1]) + Content(ms[|ms| - 1].data)
  }

  /** s is where the image that the last chunk belongs to starts: right after the previous done chunk. */
  ghost predicate StartsImage(ms: seq<Msg>, s: nat)
    requires forall m <- ms :: m.CameraImage?
  {
    && s < |ms|
    && (s == 0 || ms[s - 1].done)
    && forall j :: s <= j < |ms| - 1 ==> !ms[j].done
  }

  /** A camera holds the chunks since the previous done one, put together, also when the first of them are empty. */
  lemma CameraCache(log: Log, k: uint32, s: nat)
    requires LastReg(log, Slot(Camera, k)).Some?
    requires StartsImage(StatesAfter(log, LastReg(log, Slot(Camera, k)).value, Camera, k), s)
    ensures var i := LastReg(log, Slot(Camera, k)).value;
            var ms := StatesAfter(log, i, Camera, k);
            && Content(CacheOf(log, i).image) == Chunks(ms[s..])
            && CacheOf(log, i).done == ms[|ms| - 1].done
  {
    CurrentCache(log, Camera, k);
    CameraFold(StatesAfter(log, LastReg(log, Slot(Camera, k)).value, Camera, k), s);
  }

  lemma {:induction false} CameraFold(ms: seq<Msg>, s: nat)
    requires (forall m <- ms :: m.CameraImage?) && StartsImage(ms, s)
    ensures Content(Fold(Camera, ms).image) == Chunks(ms[s..])
    ensures Fold(Camera, ms).done == ms[|ms| - 1].done
  {
    var n := |ms| - 1;
    assert ms[n] in ms;
    assert ms[s..][..|ms[s..]| - 1] == ms[..n][s..];
    if s < n {
      CameraFold(ms[..n], s);
    } else if n > 0 {
      DoneFold(ms[..n]);
    }
  }

  lemma DoneFold(ms: seq<Msg>)
    requires (forall m <- ms :: m.CameraImage?) && ms != []
    ensures Fold(Camera, ms).done == ms[|ms| - 1].done
  {
    assert ms[|ms| - 1] in ms;
  }

  // ----- Several live subscriptions -----

  function Times(m: Msg, n: nat): seq<Msg> {
    seq(n, _ => m)
  }

  /** What the state handler gets when every message is delivered to n subscriptions. */
  function Repeat(ms: seq<Msg>, n: nat): (r: seq<Msg>)
    ensures forall m <- r :: m in ms
  {
    if ms == [] then [] else Repeat(ms[..|ms| - 1], n) + Times(ms[|ms| - 1], n)
  }

  lemma {:induction false} RepeatOnce(ms: seq<Msg>)
    ensures Repeat(ms, 1) == ms
  {
    if ms != [] { RepeatOnce(ms[..|ms| - 1]); }
  }

  function ApplyTimes(d: Domain, c: Cache, m: Msg, n: nat): Cache
    requires IsState(m)
  {
    if n == 0 then c else ApplyState(d, ApplyTimes(d, c, m, n - 1), m)
  }

  lemma {:induction false} FoldTimes(d: Domain, ms: seq<Msg>, m: Msg, n: nat)
    requires (forall m' <- ms :: IsState(m')) && IsState(m)
    ensures forall m' <- ms + Times(m, n) :: IsState(m')
    ensures Fold(d, ms + Times(m, n)) == ApplyTimes(d, Fold(d, ms), m, n)
    decreases n
  {
    if n == 0 {
      assert ms + Times(m, n) == ms;
    } else {
      FoldTimes(d, ms, m, n - 1);
      FoldAppend(d, ms + Times(m, n - 1), m);
      assert ms + Times(m, n) == ms + Times(m, n - 1) + [m];
    }
  }

  lemma FoldRepeatLast(d: Domain, ms: seq<Msg>, n: nat)
    requires (forall m <- ms :: IsState(m)) && ms != []
    ensures var m := ms[|ms| - 1];
            IsState(m) && Fold(d, Repeat(ms, n)) == ApplyTimes(d, Fold(d, Repeat(ms[..|ms| - 1], n)), m, n)
  {
    assert ms[|ms| - 1] in ms;
    FoldTimes(d, Repeat(ms[..|ms| - 1], n), ms[|ms| - 1], n);
  }

  lemma {:induction false} ApplyPlainTimes(d: Domain, c: Cache, m: Msg, n: nat)
    requires m.EntityState? && n >= 1
    ensures ApplyTimes(d, c, m, n) == ApplyState(d, c, m)
    decreases n
  {
    if n > 1 { ApplyPlainTimes(d, c, m, n - 1); }
  }

  /** Ordinary states do not notice how many subscriptions there are. */
  lemma {:induction false} PlainRepeated(d: Domain, ms: seq<Msg>, n: nat)
    requires (forall m <- ms :: m.EntityState?) && n >= 1
    ensures Fold(d, Repeat(ms, n)) == Fold(d, ms)
  {
    if ms != [] {
      PlainRepeated(d, ms[..|ms| - 1], n);
      FoldRepeatLast(d, ms, n);
      assert ms[|ms| - 1] in ms;
      ApplyPlainTimes(d, Fold(d, ms[..|ms| - 1]), ms[|ms| - 1], n);
    }
  }

  lemma ApplyDoneTimes(c: Cache, m: Msg, n: nat)
    requires m.CameraImage? && m.done && n >= 2
    ensures Content(ApplyTimes(Camera, c, m, n).image) == Content(m.data)
  {
    assert ApplyTimes(Camera, c, m, n - 1).done;
  }

  /**
   Cameras do: with more than one subscription a finished image is its last chunk alone. It is the right
   image exactly when the chunks before the last one are empty.
   */
  lemma {:induction false} CameraRepeated(ms: seq<Msg>, s: nat, n: nat)
    requires (forall m <- ms :: m.CameraImage?) && StartsImage(ms, s) && ms[|ms| - 1].done && n >= 2
    ensures Content(Fold(Camera, Repeat(ms, n)).image) == Content(ms[|ms| - 1].data)
    ensures Content(Fold(Camera, Repeat(ms, n)).image) == Content(Fold(Camera, ms).image) <==>
            Chunks(ms[s..|ms| - 1]) == []
  {
    FoldRepeatLast(Camera, ms, n);
    ApplyDoneTimes(Fold(Camera, Repeat(ms[..|ms| - 1], n)), ms[|ms| - 1], n);
    CameraFold(ms, s);
    LastChunk(ms, s);
  }

  lemma LastChunk(ms: seq<Msg>, s: nat)
    requires (forall m <- ms :: m.CameraImage?) && s < |ms|
    ensures ms[|ms| - 1].CameraImage?
    ensures Chunks(ms[s..]) == Content(ms[|ms| - 1].data) <==> Chunks(ms[s..|ms| - 1]) == []
  {
    var n := |ms| - 1;
    assert ms[n] in ms;
    ChunksSplit(ms[s..], ms[s..n], ms[n]);
    SameAfterPrepending(Chunks(ms[s..n]), Content(ms[n].data));
  }

  lemma ChunksSplit(all: seq<Msg>, first: seq<Msg>, last: Msg)
    requires (forall m <- all :: m.CameraImage?) && all == first + [last]
    ensures last.CameraImage? && forall m <- first :: m.CameraImage?
    ensures Chunks(all) == Chunks(first) + Content(last.data)
  {
    assert all[|all| - 1] == last && all[..|all| - 1] == first;
  }

  lemma SameAfterPrepending(a: seq<byte>, b: seq<byte>)
    ensures a + b == b <==> a == []
  {
    assert |a + b| == |a| + |b|;
  }

  // ----- One entity seen through the log -----

  /** What a log says about one domain and key: the registration that counts, and the states since. */
  datatype Held = Held(listing: Msg, states: seq<Msg>)

  function View(log: Log, d: Domain, k: uint32): (h: Option<Held>)
    ensures h.Some? ==> forall m <- h.value.states :: IsState(m)
  {
    match LastReg(log, Slot(d, k))
    case None => None
    case Some(i) => Some(Held(log[i].msg, StatesAfter(log, i, d, k)))
  }

  lemma ViewStep(log: Log, e: Change, d: Domain, k: uint32)
    ensures View(log + [e], d, k) ==
            if e == Cleared then None
            else if Registers(e, Slot(d, k)) then Some(Held(e.msg, []))
            else if Updates(e, d, k) && View(log, d, k).Some? then
              Some(Held(View(log, d, k).value.listing, View(log, d, k).value.states + [e.msg]))
            else View(log, d, k)
  {
    LastRegStep(log, e, Slot(d, k));
    if LastReg(log, Slot(d, k)).Some? {
      var i := LastReg(log, Slot(d, k)).value;
      StatesAfterStep(log, e, i, d, k);
      assert StatesAfter(log, i, d, k) + [] == StatesAfter(log, i, d, k);
    }
  }

  function Copies(e: Change, n: nat): Log {
    seq(n, _ => e)
  }

  lemma CopiesStep(log: Log, e: Change, n: nat)
    requires n > 0
    ensures log + Copies(e, n) == log + Copies(e, n - 1) + [e]
  {}

  /** One registration or several of the same message: the same to see. */
  lemma {:induction false} ViewListed(log: Log, m: Msg, n: nat, d: Domain, k: uint32)
    ensures View(log + Copies(Listed(m), n), d, k) ==
            if n > 0 && Registers(Listed(m), Slot(d, k)) then Some(Held(m, [])) else View(log, d, k)
    decreases n
  {
    if n == 0 {
      assert log + Copies(Listed(m), n) == log;
    } else {
      ViewListed(log, m, n - 1, d, k);
      CopiesStep(log, Listed(m), n);
      ViewStep(log + Copies(Listed(m), n - 1), Listed(m), d, k);
    }
  }

  lemma {:induction false} ViewUpdated(log: Log, m: Msg, n: nat, d: Domain, k: uint32)
    ensures View(log + Copies(Updated(m), n), d, k) ==
            if Updates(Updated(m), d, k) && View(log, d, k).Some? then
              Some(Held(View(log, d, k).value.listing, View(log, d, k).value.states + Times(m, n)))
            else View(log, d, k)
    decreases n
  {
    if n == 0 {
      assert log + Copies(Updated(m), n) == log;
      if View(log, d, k).Some? {
        var states := View(log, d, k).value.states;
        assert states + Times(m, n) == states;
      }
    } else {
      ViewUpdated(log, m, n - 1, d, k);
      CopiesStep(log, Updated(m), n);
      ViewStep(log + Copies(Updated(m), n - 1), Updated(m), d, k);
      if View(log, d, k).Some? {
        var states := View(log, d, k).value.states;
        assert states + Times(m, n) == states + Times(m, n - 1) + [m];
      }
    }
  }
}
