/** The entity cache: one map per domain and two indexes, all of them sharing the same entity objects. */
module Registry {
  import opened Bytes
  import opened Messages
  import opened Replay

  class Entity {
    const domain: Domain
    const key: uint32
    const name: string
    const details: string
    var value: string
    var missing: bool
    var imageData: Option<seq<byte>>
    var imageDone: bool
    ghost const reg: nat   // which event of the registry's log created this object

    constructor (m: Msg, ghost reg: nat)
      requires m.ListEntity?
      ensures domain == m.domain && key == m.key && name == m.name && details == m.details
      ensures Cached() == FreshCache(m.domain) && this.reg == reg
    {
      domain, key, name, details := m.domain, m.key, m.name, m.details;
      value, missing, imageData, imageDone := "", TracksMissing(m.domain), None, false;
      this.reg := reg;
    }

    ghost function Cached(): Cache
      reads this
    {
      Cache(value, missing, imageData, imageDone)
    }

    method TakeState(m: Msg)
      requires m.EntityState?
      modifies this
      ensures Cached() == ApplyState(domain, old(Cached()), m)
    {
      value := m.value;
      if TracksMissing(domain) { missing := m.missing; }
    }

    /** The first chunk of an image replaces the data, the others are appended to it. */
    method TakeImage(m: Msg)
      requires m.CameraImage?
      modifies this
      ensures Cached() == ApplyState(domain, old(Cached()), m)
    {
      if imageDone || imageData == None {
        imageData := m.data;
      } else {
        imageData := Some(imageData.value + if m.data.Some? then m.data.value else []);
      }
      imageDone := m.done;
    }

    ghost predicate Registered(log: Log) {
      reg < |log| && log[reg] == Listed(ListEntity(domain, key, name, details))
    }
  }

  class EntityRegistry {
    var domains: map<Domain, map<uint32, Entity>>
    var byKey: map<uint32, Entity>
    var byName: map<string, Entity>
    ghost var log: Log
    ghost var objects: set<Entity>   // every entity created since the last Clear

    /** e is the object that the last registration for q created, if there is one. */
    ghost predicate Answers(e: Option<Entity>, q: Query)
      reads this
    {
      match LastReg(log, q)
      case None => e == None
      case Some(i) => e.Some? && e.value in objects && e.value.reg == i
    }

    ghost function Lookup(q: Query): Option<Entity>
      reads this
    {
      match q
      case Slot(d, k) => if d in domains && k in domains[d] then Some(domains[d][k]) else None
      case AnyDomain(k) => if k in byKey then Some(byKey[k]) else None
      case Named(n) => if n in byName then Some(byName[n]) else None
    }

    ghost predicate Lookups()
      reads this
    {
      && (forall d :: d in domains)
      && (forall q :: Answers(Lookup(q), q))
    }

    /** Each object was created by one registration and holds the states that have reached it since. */
    ghost predicate Caches()
      reads this, objects
    {
      && (forall e <- objects :: e.Registered(log) && e.Cached() == CacheOf(log, e.reg))
      && (forall e, f :: e in objects && f in objects && e.reg == f.reg ==> e == f)
    }

    ghost predicate Valid()
      reads this, objects
    {
      Lookups() && Caches()
    }

    constructor ()
      ensures Valid() && log == [] && objects == {}
    {
      domains, byKey, byName := map d: Domain | d in DOMAINS :: map[], map[], map[];
      log, objects := [], {};
      new;
      forall d: Domain ensures d in domains { DomainsIsComplete(d); }
    }

    method HandleListEntityMessage(msg: Msg) returns (handled: bool)
      requires Valid()
      modifies this
      ensures Valid() && log == old(log) + [Listed(msg)]
      ensures handled == msg.ListEntity?
      ensures old(objects) <= objects && fresh(objects - old(objects))
      ensures msg.ListEntity? ==>
                && domains.Keys == old(domains).Keys && msg.key in domains[msg.domain]
                && var e := domains[msg.domain][msg.key];
                   && fresh(e) && byKey == old(byKey)[msg.key := e] && byName == old(byName)[msg.name := e]
                   && domains[msg.domain] == old(domains)[msg.domain][msg.key := e]
                   && (forall d :: d != msg.domain ==> domains[d] == old(domains)[d])
                   && e.domain == msg.domain && e.key == msg.key && e.name == msg.name && e.details == msg.details
                   && e.value == "" && e.imageData == None && !e.imageDone
                   && (e.missing <==> msg.domain in {Sensor, BinarySensor, TextSensor, Number, Select})
      ensures !msg.ListEntity? ==> domains == old(domains) && byKey == old(byKey) && byName == old(byName)
    {
      ghost var created: Entity? := null;
      if msg.ListEntity? {
        var e := new Entity(msg, |log|);
        created := e;
        domains := domains[msg.domain := domains[msg.domain][msg.key := e]];
        byKey := byKey[msg.key := e];
        byName := byName[msg.name := e];
        objects := objects + {e};
      }
      log := log + [Listed(msg)];
      ListedKeepsLookups(msg, created);
      ListedKeepsCaches(msg);
      handled := msg.ListEntity?;
    }

    twostate lemma ListedKeepsLookups(msg: Msg, new e: Entity?)
      requires old(Lookups()) && log == old(log) + [Listed(msg)]
      requires if msg.ListEntity? then
                 && e != null && objects == old(objects) + {e as Entity} && e.reg == |old(log)|
                 && old(msg.domain in domains)
                 && domains == old(domains)[msg.domain := old(domains)[msg.domain][msg.key := e]]
                 && byKey == old(byKey)[msg.key := e]
                 && byName == old(byName)[msg.name := e]
               else
                 domains == old(domains) && byKey == old(byKey) && byName == old(byName) && objects == old(objects)
      ensures Lookups()
    {
      forall q ensures Answers(Lookup(q), q) {
        LastRegStep(old(log), Listed(msg), q);
        assert old(Answers(Lookup(q), q));
      }
    }

    twostate lemma ListedKeepsCaches(msg: Msg)
      requires old(Caches()) && log == old(log) + [Listed(msg)]
      requires old(objects) <= objects && forall e <- old(objects) :: e.Cached() == old(e.Cached())
      requires forall e <- objects - old(objects) ::
                 msg.ListEntity? && e.reg == |old(log)| && e.Registered(log) && e.Cached() == FreshCache(e.domain)
      requires forall e, f :: e in objects && f in objects && e !in old(objects) && f !in old(objects) ==> e == f
      ensures Caches()
    {
      forall e <- old(objects) ensures e.Registered(log) && e.Cached() == CacheOf(log, e.reg) {
        assert old(e.Registered(log));
        CacheOfStep(old(log), Listed(msg), e.reg);
      }
    }

    /** The object updated is shared by all the lookups that lead to it, and no other object changes. */
    method HandleStateMessage(msg: Msg) returns (handled: bool)
      requires Valid()
      modifies this, objects
      ensures Valid() && log == old(log) + [Updated(msg)] && objects == old(objects)
      ensures domains == old(domains) && byKey == old(byKey) && byName == old(byName)
      ensures handled <==> exists d, k :: Updates(Updated(msg), d, k) && LastReg(old(log), Slot(d, k)).Some?
      ensures msg.EntityState? && msg.domain !in {Button, Camera} ==>
                && (handled <==> msg.key in domains[msg.domain])
                && (handled ==> TookState(domains[msg.domain][msg.key], msg))
      ensures msg.CameraImage? ==>
                && (handled <==> msg.key in domains[Camera])
                && (handled ==> TookImage(domains[Camera][msg.key], msg))
      ensures handled ==> (msg.EntityState? && msg.domain !in {Button, Camera}) || msg.CameraImage?
      ensures forall e <- objects ::
                !(handled && e == domains[if msg.EntityState? then msg.domain else Camera][msg.key]) ==>
                  e.Cached() == old(e.Cached())
    {
      handled := false;
      if msg.EntityState? && msg.domain != Button && msg.domain != Camera {
        assert Answers(Lookup(Slot(msg.domain, msg.key)), Slot(msg.domain, msg.key));
        if msg.key in domains[msg.domain] {
          var e := domains[msg.domain][msg.key];
          e.TakeState(msg);
          handled := true;
        }
      } else if msg.CameraImage? {
        assert Answers(Lookup(Slot(Camera, msg.key)), Slot(Camera, msg.key));
        if msg.key in domains[Camera] {
          var e := domains[Camera][msg.key];
          e.TakeImage(msg);
          handled := true;
        }
      }
      log := log + [Updated(msg)];
      UpdatedKeepsLookups(msg);
      UpdatedKeepsCaches(msg);
    }

    /** The entity has the value, and the missing flag where its type has one, of the message. */
    twostate predicate TookState(e: Entity, msg: Msg)
      requires msg.EntityState?
      reads e
    {
      && e.value == msg.value
      && e.missing == (if e.domain in {Sensor, BinarySensor, TextSensor, Number, Select} then msg.missing
                       else old(e.missing))
      && e.imageData == old(e.imageData) && e.imageDone == old(e.imageDone)
    }

    /** The first chunk of an image replaces what was there, any other is appended. */
    twostate predicate TookImage(e: Entity, msg: Msg)
      requires msg.CameraImage?
      reads e
    {
      && e.imageDone == msg.done && e.value == old(e.value) && e.missing == old(e.missing)
      && (old(e.imageDone) || old(e.imageData) == None ==> e.imageData == msg.data)
      && (!old(e.imageDone) && old(e.imageData).Some? ==>
            e.imageData == Some(old(e.imageData).value + if msg.data.Some? then msg.data.value else []))
    }

    twostate lemma UpdatedKeepsLookups(msg: Msg)
      requires old(Lookups()) && log == old(log) + [Updated(msg)]
      requires domains == old(domains) && byKey == old(byKey) && byName == old(byName) && objects == old(objects)
      ensures Lookups()
    {
      forall q ensures Answers(Lookup(q), q) {
        LastRegStep(old(log), Updated(msg), q);
        assert old(Answers(Lookup(q), q));
      }
    }

    twostate lemma UpdatedKeepsCaches(msg: Msg)
      requires old(Caches()) && log == old(log) + [Updated(msg)] && objects == old(objects)
      requires forall e <- objects ::
                 e.Cached() ==
                 if Updates(Updated(msg), e.domain, e.key) && LastReg(old(log), Slot(e.domain, e.key)) == Some(e.reg)
                 then ApplyState(e.domain, old(e.Cached()), msg)
                 else old(e.Cached())
      ensures Caches()
    {
      forall e <- objects ensures e.Registered(log) && e.Cached() == CacheOf(log, e.reg) {
        assert old(e.Registered(log));
        CacheOfStep(old(log), Updated(msg), e.reg);
      }
    }

    method Clear()
      requires Valid()
      modifies this
      ensures Valid() && log == old(log) + [Cleared] && objects == {}
      ensures byKey == map[] && byName == map[] && forall d :: d in domains && domains[d] == map[]
      ensures forall q :: Lookup(q) == None
    {
      domains, byKey, byName := map d: Domain | d in DOMAINS :: map[], map[], map[];
      forall d: Domain ensures d in domains { DomainsIsComplete(d); }
      log, objects := log + [Cleared], {};
    }

    /** Finds the key if some domain has it, and then the object that its own domain's map holds. */
    method ByKey(k: uint32) returns (e: Entity?)
      requires Valid()
      ensures e == null <==> forall d :: k !in domains[d]
      ensures e != null ==> e.key == k && k in domains[e.domain] && domains[e.domain][k] == e
    {
      IndexCoherence(this, k);
      e := if k in byKey then byKey[k] else null;
    }

    /** Finds the last entity registered under the name since the last Clear. */
    method ByName(n: string) returns (e: Entity?)
      requires Valid()
      ensures e == null <==> LastReg(log, Named(n)) == None
      ensures e != null ==>
                && e.reg == LastReg(log, Named(n)).value
                && log[e.reg] == Listed(ListEntity(e.domain, e.key, n, e.details))
    {
      NamedEntry(this, n);
      assert Answers(Lookup(Named(n)), Named(n));
      e := if n in byName then byName[n] else null;
    }

    method Len() returns (n: nat)
      requires Valid()
      ensures n <= SumSizes(DomainKeys())
      ensures n == SumSizes(DomainKeys()) <==>
                forall d, e, k :: k in domains[d] && k in domains[e] ==> d == e
    {
      KeyCount(this);
      n := |byKey|;
    }

    ghost function DomainKeys(): (ks: seq<set<uint32>>)
      requires Lookups()
      reads this
      ensures |ks| == |DOMAINS|
    {
      seq(|DOMAINS|, i requires 0 <= i < |DOMAINS| reads this =>
        if DOMAINS[i] in domains then domains[DOMAINS[i]].Keys else {})
    }

    /** A list of the entities of a domain, each of them once, in some order. */
    method Entities(d: Domain) returns (es: seq<Entity>)
      requires Valid()
      ensures |es| == |domains[d]|
      ensures forall k <- domains[d] :: domains[d][k] in es
      ensures forall e <- es :: e.domain == d && e.key in domains[d] && domains[d][e.key] == e
    {
      es := [];
      var left := domains[d].Keys;
      while left != {}
        invariant left <= domains[d].Keys && |es| + |left| == |domains[d].Keys|
        invariant forall k <- domains[d] :: k in left || domains[d][k] in es
        invariant forall e <- es :: e.domain == d && e.key in domains[d] && domains[d][e.key] == e
        decreases |left|
      {
        var k :| k in left;
        assert Answers(Lookup(Slot(d, k)), Slot(d, k));
        es, left := es + [domains[d][k]], left - {k};
      }
    }
  }

  // ----- Sizes -----

  function SumSizes(ks: seq<set<uint32>>): nat {
    if ks == [] then 0 else |ks[0]| + SumSizes(ks[1..])
  }

  function UnionAll(ks: seq<set<uint32>>): set<uint32> {
    if ks == [] then {} else ks[0] + UnionAll(ks[1..])
  }

  ghost predicate PairwiseDisjoint(ks: seq<set<uint32>>) {
    forall i, j :: 0 <= i < j < |ks| ==> ks[i] !! ks[j]
  }

  lemma {:induction false} InUnion(ks: seq<set<uint32>>, k: uint32)
    ensures k in UnionAll(ks) <==> exists i :: 0 <= i < |ks| && k in ks[i]
  {
    if ks != [] {
      InUnion(ks[1..], k);
      if k in UnionAll(ks[1..]) {
        var i :| 0 <= i < |ks[1..]| && k in ks[1..][i];
        assert k in ks[i + 1];
      }
      if i :| 0 < i < |ks| && k in ks[i] {
        assert k in ks[1..][i - 1];
      }
    }
  }

  lemma UnionOfTwo(a: set<uint32>, b: set<uint32>)
    ensures |a + b| <= |a| + |b|
    ensures |a + b| == |a| + |b| <==> a !! b
  {
    assert a + b == a + (b - a) && a !! (b - a);
    assert b == (b - a) + (b * a);
    assert a !! b <==> b * a == {};
  }

  lemma DisjointFromRest(ks: seq<set<uint32>>)
    requires ks != []
    ensures ks[0] !! UnionAll(ks[1..]) <==> forall j :: 1 <= j < |ks| ==> ks[0] !! ks[j]
  {
    forall k ensures k in UnionAll(ks[1..]) <==> exists j :: 1 <= j < |ks| && k in ks[j] {
      InUnion(ks[1..], k);
      if k in UnionAll(ks[1..]) {
        var i :| 0 <= i < |ks[1..]| && k in ks[1..][i];
        assert k in ks[i + 1];
      }
      if j :| 1 <= j < |ks| && k in ks[j] {
        assert k in ks[1..][j - 1];
      }
    }
  }

  lemma PairwiseDisjointStep(ks: seq<set<uint32>>)
    requires ks != []
    ensures PairwiseDisjoint(ks) <==> PairwiseDisjoint(ks[1..]) && forall j :: 1 <= j < |ks| ==> ks[0] !! ks[j]
  {
    assert forall j :: 1 <= j < |ks| ==> ks[j] == ks[1..][j - 1];
  }

  lemma {:induction false} UnionSize(ks: seq<set<uint32>>)
    ensures |UnionAll(ks)| <= SumSizes(ks)
    ensures |UnionAll(ks)| == SumSizes(ks) <==> PairwiseDisjoint(ks)
  {
    if ks != [] {
      UnionSize(ks[1..]);
      UnionOfTwo(ks[0], UnionAll(ks[1..]));
      DisjointFromRest(ks);
      PairwiseDisjointStep(ks);
    }
  }

  // ----- What a valid registry promises -----

  /**
   After any history an entity is listed in a domain exactly when it was registered there since the last
   Clear, and the object holds the last registration's fields with all its later states folded in.
   */
  lemma ReplayedEntry(r: EntityRegistry, d: Domain, k: uint32)
    requires r.Valid()
    ensures k in r.domains[d] <==> LastReg(r.log, Slot(d, k)).Some?
    ensures k in r.domains[d] ==>
              var e, i := r.domains[d][k], LastReg(r.log, Slot(d, k)).value;
              && r.log[i] == Listed(ListEntity(d, k, e.name, e.details))
              && e.domain == d && e.key == k
              && e.Cached() == Fold(d, StatesAfter(r.log, i, d, k))
  {
    assert r.Answers(r.Lookup(Slot(d, k)), Slot(d, k));
    if k in r.domains[d] {
      CurrentCache(r.log, d, k);
    }
  }

  /** The same in terms of what the history says about the entity. */
  lemma HeldEntry(r: EntityRegistry, d: Domain, k: uint32)
    requires r.Valid()
    ensures k in r.domains[d] <==> View(r.log, d, k).Some?
    ensures k in r.domains[d] ==>
              var e, held := r.domains[d][k], View(r.log, d, k).value;
              held.listing == ListEntity(d, k, e.name, e.details) && e.Cached() == Fold(d, held.states)
  {
    ReplayedEntry(r, d, k);
  }

  /**
   byName finds the last entity registered under a name. It is the object of its domain's map too, unless
   its key was registered there again since, under another name.
   */
  lemma NamedEntry(r: EntityRegistry, n: string)
    requires r.Valid()
    ensures n in r.byName <==> LastReg(r.log, Named(n)).Some?
    ensures n in r.byName ==>
              var e, i := r.byName[n], LastReg(r.log, Named(n)).value;
              && e.name == n && r.log[i] == Listed(ListEntity(e.domain, e.key, n, e.details))
              && e.key in r.domains[e.domain]
              && (r.domains[e.domain][e.key] == e <==>
                    forall j :: i < j < |r.log| ==> !Registers(r.log[j], Slot(e.domain, e.key)))
  {
    assert r.Answers(r.Lookup(Named(n)), Named(n));
    if n in r.byName {
      var e, i := r.byName[n], LastReg(r.log, Named(n)).value;
      LastRegIsLast(r.log, Named(n), i);
      LastRegIsLast(r.log, Slot(e.domain, e.key), i);
      RegisteredSince(r.log, Slot(e.domain, e.key), i);
      assert r.Answers(r.Lookup(Slot(e.domain, e.key)), Slot(e.domain, e.key));
    }
  }

  /** byKey holds the very object that its own domain's map holds, and has a key exactly when some domain does. */
  lemma IndexCoherence(r: EntityRegistry, k: uint32)
    requires r.Valid()
    ensures k in r.byKey ==>
              var e := r.byKey[k];
              e.key == k && k in r.domains[e.domain] && r.domains[e.domain][k] == e
    ensures k in r.byKey <==> exists d :: k in r.domains[d]
  {
    KeyRegIsSlotReg(r.log, k);
    assert r.Answers(r.Lookup(AnyDomain(k)), AnyDomain(k));
    forall d ensures r.Answers(r.Lookup(Slot(d, k)), Slot(d, k)) {}
    assert forall d :: k in r.domains[d] <==> LastReg(r.log, Slot(d, k)).Some?;
  }

  lemma KeyCount(r: EntityRegistry)
    requires r.Valid()
    ensures |r.byKey| <= SumSizes(r.DomainKeys())
    ensures |r.byKey| == SumSizes(r.DomainKeys()) <==>
              forall d, e, k :: k in r.domains[d] && k in r.domains[e] ==> d == e
  {
    var ks := r.DomainKeys();
    UnionSize(ks);
    forall k ensures k in r.byKey <==> k in UnionAll(ks) {
      IndexCoherence(r, k);
      InUnion(ks, k);
      if d :| k in r.domains[d] {
        DomainsIsComplete(d);
        var i :| 0 <= i < |DOMAINS| && DOMAINS[i] == d;
        assert k in ks[i];
      }
    }
    assert r.byKey.Keys == UnionAll(ks);
    DisjointDomains(r);
  }

  lemma DisjointDomains(r: EntityRegistry)
    requires r.Valid()
    ensures PairwiseDisjoint(r.DomainKeys()) <==> forall d, e, k :: k in r.domains[d] && k in r.domains[e] ==> d == e
  {
    var ks := r.DomainKeys();
    if PairwiseDisjoint(ks) {
      forall d, e, k | k in r.domains[d] && k in r.domains[e] ensures d == e {
        DomainsIsComplete(d);
        DomainsIsComplete(e);
        var i :| 0 <= i < |DOMAINS| && DOMAINS[i] == d;
        var j :| 0 <= j < |DOMAINS| && DOMAINS[j] == e;
        assert k in ks[i] && k in ks[j];
      }
    }
  }
}
