/** Handlers by message type and id, and the dispatch of a message to those registered for its type. */
module Router {
  import opened Bytes

  // ----- The handler table as a value -----

  datatype Table<H> = Table(handlers: map<uint32, map<nat, H>>, nextID: nat)
  {
    /** The handlers of a type. An id that was never registered and an empty inner map look the same. */
    function Live(t: uint32): map<nat, H> {
      if t in handlers then handlers[t] else map[]
    }

    /** Ids are 64-bit counters, so they start again at zero after the last one. */
    function NextId(): nat {
      (nextID + 1) % TWO_64
    }

    function On(t: uint32, h: H): Table<H> {
      Table(handlers[t := Live(t)[NextId() := h]], NextId())
    }

    function Remove(t: uint32, id: nat): Table<H> {
      if t in handlers then Table(handlers[t := handlers[t] - {id}], nextID) else this
    }

    /** Every registered id was issued before. */
    ghost predicate Issued() {
      forall t, id :: id in Live(t) ==> 1 <= id <= nextID
    }

    /** Two tables that no caller can tell apart. */
    ghost predicate Same(other: Table<H>) {
      nextID == other.nextID && forall t :: Live(t) == other.Live(t)
    }

    /** The table without the handlers of the given ids. */
    function Without(ids: set<nat>): Table<H> {
      Table(map t | t in handlers :: handlers[t] - ids, nextID)
    }
  }

  function NewTable<H>(): Table<H> {
    Table(map[], 0)
  }

  /** A registration or a removal, by whichever goroutine or handler. */
  datatype Action<H> = Register(t: uint32, h: H) | Unregister(t: uint32, id: nat)

  function Apply<H>(t: Table<H>, a: Action<H>): Table<H> {
    match a
    case Register(ty, h) => t.On(ty, h)
    case Unregister(ty, id) => t.Remove(ty, id)
  }

  function ApplyAll<H>(t: Table<H>, actions: seq<Action<H>>): Table<H>
    decreases |actions|
  {
    if actions == [] then t else ApplyAll(Apply(t, actions[0]), actions[1..])
  }

  lemma {:induction false} ApplyAllAppend<H>(t: Table<H>, a: seq<Action<H>>, b: seq<Action<H>>)
    ensures ApplyAll(t, a + b) == ApplyAll(ApplyAll(t, a), b)
    decreases |a|
  {
    if a == [] {
      assert a + b == b;
    } else {
      assert (a + b)[1..] == a[1..] + b;
      ApplyAllAppend(Apply(t, a[0]), a[1..], b);
    }
  }

  function Registrations<H>(actions: seq<Action<H>>): nat
    decreases |actions|
  {
    if actions == [] then 0 else (if actions[0].Register? then 1 else 0) + Registrations(actions[1..])
  }

  lemma {:induction false} RegistrationsAppend<H>(a: seq<Action<H>>, b: seq<Action<H>>)
    ensures Registrations(a + b) == Registrations(a) + Registrations(b)
    decreases |a|
  {
    if a == [] {
      assert a + b == b;
    } else {
      assert (a + b)[1..] == a[1..] + b;
      RegistrationsAppend(a[1..], b);
    }
  }

  lemma ActionKeepsIssued<H>(t: Table<H>, a: Action<H>)
    requires t.Issued() && (a.Register? ==> t.nextID + 1 < TWO_64)
    ensures Apply(t, a).Issued() && Apply(t, a).nextID == t.nextID + if a.Register? then 1 else 0
  {
    var u := Apply(t, a);
    forall ty, id | id in u.Live(ty) ensures 1 <= id <= u.nextID {
      if id !in t.Live(ty) {
        assert a.Register? && id == t.NextId();
      }
    }
  }

  /** An id cannot come up twice before 2^64 registrations: the next one is new, and stays accounted for. */
  lemma {:induction false} IdsAreNew<H>(t: Table<H>, actions: seq<Action<H>>)
    requires t.Issued() && t.nextID + Registrations(actions) < TWO_64
    ensures var u := ApplyAll(t, actions);
            && u.Issued() && u.nextID == t.nextID + Registrations(actions)
            && (u.nextID + 1 < TWO_64 ==> u.NextId() == u.nextID + 1 && forall ty :: u.NextId() !in u.Live(ty))
    decreases |actions|
  {
    if actions != [] {
      ActionKeepsIssued(t, actions[0]);
      IdsAreNew(Apply(t, actions[0]), actions[1..]);
    }
  }

  // ----- When ids are used again -----

  lemma {:induction false} CounterAfter<H>(t: Table<H>, actions: seq<Action<H>>)
    requires t.nextID < TWO_64
    ensures ApplyAll(t, actions).nextID == (t.nextID + Registrations(actions)) % TWO_64
    decreases |actions|
  {
    if actions != [] {
      CounterAfter(Apply(t, actions[0]), actions[1..]);
    }
  }

  /** The id that the registration at position i of a run gets. */
  function IdAt<H>(t: Table<H>, actions: seq<Action<H>>, i: nat): nat
    requires i < |actions|
  {
    ApplyAll(t, actions[..i]).NextId()
  }

  lemma IdAtIsCount<H>(t: Table<H>, actions: seq<Action<H>>, i: nat)
    requires t.nextID < TWO_64 && i < |actions|
    ensures IdAt(t, actions, i) == (t.nextID + Registrations(actions[..i]) + 1) % TWO_64
  {
    CounterAfter(t, actions[..i]);
  }

  /** Positions i and j hold two different registrations. */
  predicate TwoRegistrations<H>(actions: seq<Action<H>>, i: nat, j: nat) {
    i < j < |actions| && actions[i].Register? && actions[j].Register?
  }

  lemma RegistrationsBetween<H>(actions: seq<Action<H>>, i: nat, j: nat)
    requires TwoRegistrations(actions, i, j)
    ensures Registrations(actions[..i]) < Registrations(actions[..j]) < Registrations(actions)
  {
    assert actions[..j] == actions[..i] + actions[i..j] && actions == actions[..j] + actions[j..];
    RegistrationsAppend(actions[..i], actions[i..j]);
    RegistrationsAppend(actions[..j], actions[j..]);
  }

  lemma {:induction false} PositionOfRank<H>(actions: seq<Action<H>>, rank: nat) returns (i: nat)
    requires rank < Registrations(actions)
    ensures i < |actions| && actions[i].Register? && Registrations(actions[..i]) == rank
    decreases |actions|
  {
    if actions[0].Register? && rank == 0 {
      i := 0;
    } else {
      var k := PositionOfRank(actions[1..], if actions[0].Register? then rank - 1 else rank);
      i := k + 1;
      assert actions[..i][1..] == actions[1..][..k];
    }
  }

  /** Two registrations get the same id exactly when a multiple of 2^64 registrations lies between them. */
  lemma SameIdIff<H>(t: Table<H>, actions: seq<Action<H>>, i: nat, j: nat)
    requires t.nextID < TWO_64 && TwoRegistrations(actions, i, j)
    ensures IdAt(t, actions, i) == IdAt(t, actions, j) <==>
            (Registrations(actions[..j]) - Registrations(actions[..i])) % TWO_64 == 0
  {
    IdAtIsCount(t, actions, i);
    IdAtIsCount(t, actions, j);
  }

  ghost predicate IdsDiffer<H>(t: Table<H>, actions: seq<Action<H>>) {
    forall i, j :: TwoRegistrations(actions, i, j) ==> IdAt(t, actions, i) != IdAt(t, actions, j)
  }

  /** Whatever else a run does, all its registrations get different ids exactly when there are at most 2^64. */
  lemma IdsDifferIff<H>(t: Table<H>, actions: seq<Action<H>>)
    requires t.nextID < TWO_64
    ensures IdsDiffer(t, actions) <==> Registrations(actions) <= TWO_64
  {
    if Registrations(actions) <= TWO_64 {
      forall i, j | TwoRegistrations(actions, i, j) ensures IdAt(t, actions, i) != IdAt(t, actions, j) {
        RegistrationsBetween(actions, i, j);
        SameIdIff(t, actions, i, j);
      }
    } else {
      var i := PositionOfRank(actions, 0);
      var j := PositionOfRank(actions, TWO_64);
      if j < i {
        RegistrationsBetween(actions, j, i);
        assert false;
      }
      assert TwoRegistrations(actions, i, j);
      SameIdIff(t, actions, i, j);
    }
  }

  /** The handler registered first keeps its id for as long as nobody removes it and the counter has not come around. */
  lemma {:induction false} FirstStays<H>(t: Table<H>, ty: uint32, first: H, more: seq<Action<H>>)
    requires 1 <= t.nextID && t.nextID + Registrations(more) <= TWO_64
    requires 1 in t.Live(ty) && t.Live(ty)[1] == first && Unregister(ty, 1) !in more
    ensures var u := ApplyAll(t, more); 1 in u.Live(ty) && u.Live(ty)[1] == first
    decreases |more|
  {
    if more != [] {
      var a, u := more[0], Apply(t, more[0]);
      if a.Register? && t.nextID == TWO_64 - 1 {
        assert u.nextID == 0 && Registrations(more[1..]) == 0;
        FirstStaysWithout(u, ty, first, more[1..]);
      } else {
        FirstStays(u, ty, first, more[1..]);
      }
    }
  }

  lemma {:induction false} FirstStaysWithout<H>(t: Table<H>, ty: uint32, first: H, more: seq<Action<H>>)
    requires Registrations(more) == 0
    requires 1 in t.Live(ty) && t.Live(ty)[1] == first && Unregister(ty, 1) !in more
    ensures var u := ApplyAll(t, more); 1 in u.Live(ty) && u.Live(ty)[1] == first
    decreases |more|
  {
    if more != [] {
      FirstStaysWithout(Apply(t, more[0]), ty, first, more[1..]);
    }
  }

  /** From a new router: after one registration and 2^64 - 1 others, the next one replaces the first, still live. */
  lemma IdsComeAround<H>(ty: uint32, first: H, more: seq<Action<H>>, next: H)
    requires Registrations(more) == TWO_64 - 1 && Unregister(ty, 1) !in more
    ensures var t := ApplyAll(NewTable(), [Register(ty, first)] + more);
            && 1 in t.Live(ty) && t.Live(ty)[1] == first
            && t.NextId() == 1 && t.On(ty, next).Live(ty) == t.Live(ty)[1 := next]
  {
    var start := Apply(NewTable(), Register(ty, first));
    assert ([Register(ty, first)] + more)[1..] == more;
    FirstStays(start, ty, first, more);
    CounterAfter(start, more);
  }

  /** There are such runs. */
  lemma {:induction false} ManyRegistrations<H>(ty: uint32, h: H, n: nat)
    ensures var more := seq(n, _ => Register(ty, h)); Registrations(more) == n && forall a <- more :: a.Register?
    decreases n
  {
    var more := seq(n, _ => Register(ty, h));
    if n > 0 {
      assert more[1..] == seq(n - 1, _ => Register(ty, h));
      ManyRegistrations(ty, h, n - 1);
    }
  }

  /** A registration adds its own handler under the next id and touches no other. */
  lemma OnAddsOne<H>(t: Table<H>, ty: uint32, h: H)
    requires t.nextID + 1 < TWO_64
    ensures var u := t.On(ty, h);
            && u.nextID == t.nextID + 1
            && t.nextID + 1 in u.Live(ty) && u.Live(ty)[t.nextID + 1] == h
            && (forall other, id :: other != ty || id != t.nextID + 1 ==>
                  (id in u.Live(other) <==> id in t.Live(other))
                  && (id in t.Live(other) ==> u.Live(other)[id] == t.Live(other)[id]))
  {}

  /** A removal takes away its own handler and no other, and doing it again changes nothing. */
  lemma RemoveOwnOnly<H>(t: Table<H>, ty: uint32, id: nat)
    ensures var u := t.Remove(ty, id);
            && u.nextID == t.nextID
            && u.Live(ty) == t.Live(ty) - {id}
            && (forall other :: other != ty ==> u.Live(other) == t.Live(other))
            && u.Remove(ty, id) == u
  {
    var u := t.Remove(ty, id);
    if ty in t.handlers {
      assert u.handlers[ty] - {id} == u.handlers[ty];
      assert u.Remove(ty, id).handlers == u.handlers;
    }
  }

  // ----- The router -----

  class Router<H> {
    var handlers: map<uint32, map<nat, H>>
    var nextID: nat

    ghost function State(): Table<H>
      reads this
    {
      Table(handlers, nextID)
    }

    constructor ()
      ensures State() == NewTable()
    {
      handlers, nextID := map[], 0;
    }

    /** The id stands for the removal function that the source returns. */
    method On(t: uint32, h: H) returns (id: nat)
      modifies this
      ensures State() == old(State()).On(t, h) && id == old(State()).NextId()
    {
      if t !in handlers {
        handlers := handlers[t := map[]];
      }
      nextID := (nextID + 1) % TWO_64;
      id := nextID;
      var inner: map<nat, H> := handlers[t];
      inner := inner[id := h];
      handlers := handlers[t := inner];
      assert handlers == old(State()).On(t, h).handlers;
    }

    method Remove(t: uint32, id: nat)
      modifies this
      ensures State() == old(State()).Remove(t, id)
    {
      if t in handlers {
        handlers := handlers[t := handlers[t] - {id}];
      }
    }

    /**
     Calls every handler that was registered for the type when the dispatch began, each exactly once, in
     some order. While the i-th of them runs, it and other goroutines may register and remove handlers:
     `during` says what happens then.
     */
    method Dispatch(t: uint32, during: (nat, H) -> seq<Action<H>>) returns (called: seq<(nat, H)>)
      modifies this
      ensures forall c <- called :: c.0 in old(State()).Live(t) && old(State()).Live(t)[c.0] == c.1
      ensures forall id <- old(State()).Live(t) :: (id, old(State()).Live(t)[id]) in called
      ensures forall i, j :: 0 <= i < j < |called| ==> called[i].0 != called[j].0
      ensures State() == ApplyAll(old(State()), Effects(called, during))
    {
      called := [];
      if t !in handlers || |handlers[t]| == 0 { return; }
      var snapshot := handlers[t];
      var left := snapshot.Keys;
      while left != {}
        invariant left <= snapshot.Keys
        invariant forall i, j :: 0 <= i < j < |called| ==> called[i].0 != called[j].0
        invariant forall c <- called :: c.0 !in left && c.0 in snapshot && snapshot[c.0] == c.1
        invariant forall id <- snapshot :: id in left || (id, snapshot[id]) in called
        invariant State() == ApplyAll(old(State()), Effects(called, during))
        decreases |left|
      {
        var id :| id in left;
        Run(during(|called|, snapshot[id]));
        EffectsAppend(called, (id, snapshot[id]), during);
        ApplyAllAppend(old(State()), Effects(called, during), during(|called|, snapshot[id]));
        called, left := called + [(id, snapshot[id])], left - {id};
      }
    }

    /** Performs registrations and removals one after the other. */
    method Run(actions: seq<Action<H>>)
      modifies this
      ensures State() == ApplyAll(old(State()), actions)
    {
      for i := 0 to |actions|
        invariant ApplyAll(State(), actions[i..]) == ApplyAll(old(State()), actions)
      {
        assert actions[i..][1..] == actions[i + 1..];
        match actions[i] {
          case Register(t, h) => var _ := On(t, h);
          case Unregister(t, id) => Remove(t, id);
        }
      }
    }
  }

  /** What happened to the table during the calls, in order. */
  function Effects<H>(called: seq<(nat, H)>, during: (nat, H) -> seq<Action<H>>): seq<Action<H>> {
    if called == [] then []
    else var n := |called| - 1; Effects(called[..n], during) + during(n, called[n].1)
  }

  lemma EffectsAppend<H>(called: seq<(nat, H)>, c: (nat, H), during: (nat, H) -> seq<Action<H>>)
    ensures Effects(called + [c], during) == Effects(called, during) + during(|called|, c.1)
  {
    assert (called + [c])[..|called|] == called;
  }
}
