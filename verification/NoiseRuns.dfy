/**
 Goroutines sending on one encrypted connection and a peer receiving. Sealing, the size check and the
 two Write calls are separate steps under the mutex; the peer receives whenever a frame has arrived.
 */
module NoiseRuns {
  import opened Bytes
  import opened Codec
  import opened Noise

  datatype Writer =
    | Idle
    | Ready(f: Frame)                          // plaintext built, waits for the mutex
    | Locked(f: Frame)
    | Sealed(f: Frame, ctr: nat)               // encrypted at this counter
    | HeaderOut(f: Frame, ctr: nat)
    | Finished                                 // still holds the mutex
  {
    predicate Holds() { !Idle? && !Ready? }
    predicate InFlight() { Sealed? || HeaderOut? }
  }

  /** A frame that is on the wire: its message, its counter, and how many writes had been refused before it. */
  datatype Entry = Entry(f: Frame, ctr: nat, refusedBefore: nat)

  datatype State = State(
    writers: seq<Writer>,
    lock: Option<nat>,
    sendCtr: nat,
    sent: seq<Entry>,
    refused: nat,
    transit: seq<byte>,     // written and not yet read
    recvCtr: nat,
    delivered: seq<Frame>,
    broken: bool)           // the receiver met an error and reads no more

  datatype Action =
    | Call(w: nat, f: Frame) | Lock(w: nat) | Encrypt(w: nat) | Refuse(w: nat)
    | WriteHeader(w: nat) | WriteBody(w: nat) | Unlock(w: nat)
    | Deliver

  function Init(n: nat): State {
    State(seq(n, _ => Idle), None, 0, [], 0, [], 0, [], false)
  }

  function SealedBytes(c: Cipher, f: Frame, ctr: nat): seq<byte> {
    c.seal(ctr, Plaintext(f))
  }

  function WriterStep(c: Cipher, s: State, a: Action): (t: Option<State>)
    requires !a.Deliver?
    ensures t.Some? ==> |t.value.writers| == |s.writers|
  {
    if a.w >= |s.writers| then None else
    match (a, s.writers[a.w])
    case (Call(w, f), Idle) => Some(s.(writers := s.writers[w := Ready(f)]))
    case (Lock(w), Ready(f)) =>
      if s.lock != None then None else Some(s.(writers := s.writers[w := Locked(f)], lock := Some(w)))
    case (Encrypt(w), Locked(f)) =>
      if s.sendCtr > MAX_NONCE then Some(s.(writers := s.writers[w := Finished]))
      else Some(s.(writers := s.writers[w := Sealed(f, s.sendCtr)], sendCtr := s.sendCtr + 1))
    case (Refuse(w), Sealed(f, ctr)) =>
      if |SealedBytes(c, f, ctr)| <= MAX_FRAME_SIZE then None
      else Some(s.(writers := s.writers[w := Finished], refused := s.refused + 1))
    case (WriteHeader(w), Sealed(f, ctr)) =>
      if |SealedBytes(c, f, ctr)| > MAX_FRAME_SIZE then None
      else Some(s.(writers := s.writers[w := HeaderOut(f, ctr)],
                   transit := s.transit + Header(|SealedBytes(c, f, ctr)|)))
    case (WriteBody(w), HeaderOut(f, ctr)) =>
      Some(s.(writers := s.writers[w := Finished], transit := s.transit + SealedBytes(c, f, ctr),
              sent := s.sent + [Entry(f, ctr, s.refused)]))
    case (Unlock(w), Finished) => Some(s.(writers := s.writers[w := Idle], lock := None))
    case _ => None
  }

  /** The receiver blocks until a whole frame is there; a frame that does not open ends its reading. */
  function DeliverStep(c: Cipher, s: State): (t: Option<State>)
    ensures t.Some? ==> t.value.writers == s.writers
  {
    if s.broken || Unwrap(s.transit, Eof).Err? then None else
    match Receive(c, s.recvCtr, s.transit, Eof)
    case (Ok(f, rest), n) => Some(s.(transit := rest, recvCtr := n, delivered := s.delivered + [f]))
    case (Err(_, rest), n) => Some(s.(transit := rest, recvCtr := n, broken := true))
  }

  function Step(c: Cipher, s: State, a: Action): (t: Option<State>)
    ensures t.Some? ==> |t.value.writers| == |s.writers|
  {
    if a.Deliver? then DeliverStep(c, s) else WriterStep(c, s, a)
  }

  function Run(c: Cipher, n: nat, actions: seq<Action>): (s: Option<State>)
    ensures s.Some? ==> |s.value.writers| == n
  {
    if actions == [] then Some(Init(n)) else
    match Run(c, n, actions[..|actions| - 1])
    case None => None
    case Some(s) => Step(c, s, actions[|actions| - 1])
  }

  // ----- Invariant -----

  function FrameBytes(c: Cipher, es: seq<Entry>): seq<byte> {
    if es == [] then [] else Wrap(SealedBytes(c, es[0].f, es[0].ctr)) + FrameBytes(c, es[1..])
  }

  lemma {:induction false} FrameBytesAppend(c: Cipher, es: seq<Entry>, e: Entry)
    ensures FrameBytes(c, es + [e]) == FrameBytes(c, es) + Wrap(SealedBytes(c, e.f, e.ctr))
  {
    if es == [] {
      assert [e][1..] == [];
    } else {
      assert (es + [e])[0] == es[0] && (es + [e])[1..] == es[1..] + [e];
      FrameBytesAppend(c, es[1..], e);
    }
  }

  function Holder(s: State): Writer {
    if s.lock.Some? && s.lock.value < |s.writers| then s.writers[s.lock.value] else Idle
  }

  function Partial(c: Cipher, s: State): seq<byte> {
    match Holder(s)
    case HeaderOut(f, ctr) => Header(|SealedBytes(c, f, ctr)|)
    case _ => []
  }

  /** How many frames the receiver has taken off the wire, the one that broke it included. */
  function Consumed(s: State): nat {
    |s.delivered| + if s.broken then 1 else 0
  }

  ghost predicate LockInv(s: State) {
    && (forall w :: 0 <= w < |s.writers| ==> (s.writers[w].Holds() <==> s.lock == Some(w)))
    && (s.lock.Some? ==> s.lock.value < |s.writers|)
  }

  /** Counter conservation, and where each frame on the wire stands relative to the refused ones. */
  ghost predicate CounterInv(c: Cipher, s: State) {
    && s.sendCtr == |s.sent| + s.refused + (if Holder(s).InFlight() then 1 else 0)
    && s.sendCtr <= MAX_NONCE + 1
    && (Holder(s).InFlight() ==> Holder(s).ctr == s.sendCtr - 1)
    && (Holder(s).HeaderOut? ==> |Holder(s).f.data| <= MAX_PAYLOAD)
    && (forall i :: 0 <= i < |s.sent| ==>
          && s.sent[i].ctr == i + s.sent[i].refusedBefore
          && s.sent[i].refusedBefore <= s.refused
          && s.sent[i].ctr <= MAX_NONCE
          && |s.sent[i].f.data| <= MAX_PAYLOAD)
    && (forall i, j :: 0 <= i <= j < |s.sent| ==> s.sent[i].refusedBefore <= s.sent[j].refusedBefore)
  }

  ghost predicate WireInv(c: Cipher, s: State) {
    && Consumed(s) <= |s.sent|
    && s.transit == FrameBytes(c, s.sent[Consumed(s)..]) + Partial(c, s)
    && s.recvCtr == |s.delivered|
    && (forall i :: 0 <= i < |s.delivered| ==> s.sent[i].refusedBefore == 0 && s.delivered[i] == CutType(s.sent[i].f))
    && (s.broken ==> s.sent[|s.delivered|].refusedBefore > 0)
  }

  ghost predicate Inv(c: Cipher, s: State) {
    LockInv(s) && CounterInv(c, s) && WireInv(c, s)
  }

  lemma StepKeepsLockInv(c: Cipher, s: State, a: Action)
    requires LockInv(s) && Step(c, s, a).Some?
    ensures LockInv(Step(c, s, a).value)
    ensures !a.Deliver? && !a.Call? && !a.Lock? ==> s.lock == Some(a.w)
    ensures a.Call? ==> Holder(Step(c, s, a).value) == Holder(s)
    ensures a.Deliver? ==> Holder(Step(c, s, a).value) == Holder(s)
  {}

  lemma StepKeepsCounterInv(c: Cipher, s: State, a: Action)
    requires c.Ideal() && LockInv(s) && CounterInv(c, s) && Step(c, s, a).Some?
    ensures CounterInv(c, Step(c, s, a).value)
  {
    StepKeepsLockInv(c, s, a);
    if a.WriteBody? {
      var e := Entry(s.writers[a.w].f, s.writers[a.w].ctr, s.refused);
      assert Step(c, s, a).value.sent == s.sent + [e];
    }
  }

  /** Nothing that the wire and the receiver depend on has changed. */
  predicate SameWire(c: Cipher, s: State, t: State) {
    && t.sent == s.sent && t.transit == s.transit && t.recvCtr == s.recvCtr
    && t.delivered == s.delivered && t.broken == s.broken && Partial(c, t) == Partial(c, s)
  }

  lemma SameWireKeepsInv(c: Cipher, s: State, t: State)
    requires WireInv(c, s) && SameWire(c, s, t)
    ensures WireInv(c, t)
  {}

  lemma QuietStepKeepsWireInv(c: Cipher, s: State, a: Action)
    requires LockInv(s) && WireInv(c, s) && Step(c, s, a).Some?
    requires a.Call? || a.Lock? || a.Encrypt? || a.Refuse? || a.Unlock?
    ensures WireInv(c, Step(c, s, a).value)
  {
    QuietStepKeepsWire(c, s, a);
    SameWireKeepsInv(c, s, Step(c, s, a).value);
  }

  lemma QuietStepKeepsWire(c: Cipher, s: State, a: Action)
    requires LockInv(s) && Step(c, s, a).Some?
    requires a.Call? || a.Lock? || a.Encrypt? || a.Refuse? || a.Unlock?
    ensures SameWire(c, s, Step(c, s, a).value)
  {
    StepKeepsLockInv(c, s, a);
  }

  lemma WriteHeaderKeepsWireInv(c: Cipher, s: State, w: nat)
    requires LockInv(s) && WireInv(c, s) && Step(c, s, WriteHeader(w)).Some?
    ensures WireInv(c, Step(c, s, WriteHeader(w)).value)
  {
    StepKeepsLockInv(c, s, WriteHeader(w));
    var t := Step(c, s, WriteHeader(w)).value;
    assert Partial(c, s) == [] && t.transit == s.transit + Partial(c, t);
    assert FrameBytes(c, s.sent[Consumed(s)..]) + [] == FrameBytes(c, s.sent[Consumed(s)..]);
  }

  lemma WriteBodyKeepsWireInv(c: Cipher, s: State, w: nat)
    requires LockInv(s) && WireInv(c, s) && Step(c, s, WriteBody(w)).Some?
    ensures WireInv(c, Step(c, s, WriteBody(w)).value)
  {
    StepKeepsLockInv(c, s, WriteBody(w));
    var t, e := Step(c, s, WriteBody(w)).value, Entry(s.writers[w].f, s.writers[w].ctr, s.refused);
    assert Holder(s) == s.writers[w] && Holder(t) == Finished;
    OneMoreFrameKeepsWireInv(c, s, t, e);
  }

  /** The rest of a frame whose header was out. */
  lemma OneMoreFrameKeepsWireInv(c: Cipher, s: State, t: State, e: Entry)
    requires WireInv(c, s) && t.sent == s.sent + [e] && t.transit == s.transit + SealedBytes(c, e.f, e.ctr)
    requires Partial(c, s) == Header(|SealedBytes(c, e.f, e.ctr)|) && Partial(c, t) == []
    requires t.recvCtr == s.recvCtr && t.delivered == s.delivered && t.broken == s.broken
    ensures WireInv(c, t)
  {
    var k := Consumed(s);
    assert t.sent[k..] == s.sent[k..] + [e];
    FrameBytesAppend(c, s.sent[k..], e);
    Associate(FrameBytes(c, s.sent[k..]), Partial(c, s), SealedBytes(c, e.f, e.ctr));
    assert t.transit + [] == t.transit;
  }

  lemma NothingArrived(c: Cipher, s: State)
    requires c.Ideal() && Inv(c, s) && Consumed(s) == |s.sent|
    ensures Unwrap(s.transit, Eof).Err?
  {
    assert s.sent[Consumed(s)..] == [];
    assert s.transit == Partial(c, s);
    if Holder(s).HeaderOut? {
      var n := |SealedBytes(c, Holder(s).f, Holder(s).ctr)|;
      assert Header(n)[1..3] == BE16(n);
    }
  }

  lemma DeliverOutcome(c: Cipher, s: State) returns (t: State)
    requires c.Ideal() && Inv(c, s) && !s.broken && |s.delivered| < |s.sent|
    ensures Step(c, s, Deliver) == Some(t)
    ensures var e := s.sent[|s.delivered|];
            var rest := FrameBytes(c, s.sent[|s.delivered| + 1..]) + Partial(c, s);
            t == if e.refusedBefore == 0
                 then s.(transit := rest, recvCtr := s.recvCtr + 1, delivered := s.delivered + [CutType(e.f)])
                 else s.(transit := rest, broken := true)
  {
    NextFrame(c, s);
    t := Step(c, s, Deliver).value;
  }

  lemma DeliverKeepsWireInv(c: Cipher, s: State)
    requires c.Ideal() && Inv(c, s) && Step(c, s, Deliver).Some?
    ensures WireInv(c, Step(c, s, Deliver).value)
  {
    if |s.delivered| == |s.sent| {
      NothingArrived(c, s);
    } else {
      var t := DeliverOutcome(c, s);
      OutcomeKeepsWireInv(c, s, t);
    }
  }

  lemma OutcomeKeepsWireInv(c: Cipher, s: State, t: State)
    requires WireInv(c, s) && !s.broken && |s.delivered| < |s.sent|
    requires var e := s.sent[|s.delivered|];
             var rest := FrameBytes(c, s.sent[|s.delivered| + 1..]) + Partial(c, s);
             t == if e.refusedBefore == 0
                  then s.(transit := rest, recvCtr := s.recvCtr + 1, delivered := s.delivered + [CutType(e.f)])
                  else s.(transit := rest, broken := true)
    ensures WireInv(c, t)
  {
    assert Partial(c, t) == Partial(c, s);
  }

  /** What the receiver makes of the first frame in transit. */
  lemma NextFrame(c: Cipher, s: State)
    requires c.Ideal() && Inv(c, s) && !s.broken && |s.delivered| < |s.sent|
    ensures var e := s.sent[|s.delivered|];
            var rest := FrameBytes(c, s.sent[|s.delivered| + 1..]) + Partial(c, s);
            && Unwrap(s.transit, Eof).Ok?
            && Receive(c, s.recvCtr, s.transit, Eof) ==
               if e.refusedBefore == 0 then (Ok(CutType(e.f), rest), s.recvCtr + 1)
               else (Err(DecryptFailed, rest), s.recvCtr)
  {
    var k := |s.delivered|;
    var e, rest := s.sent[k], FrameBytes(c, s.sent[k + 1..]) + Partial(c, s);
    assert s.sent[k..][1..] == s.sent[k + 1..];
    Associate(Wrap(SealedBytes(c, e.f, e.ctr)), FrameBytes(c, s.sent[k + 1..]), Partial(c, s));
    WrapRoundTrip(SealedBytes(c, e.f, e.ctr), rest, Eof);
    ReceiveSealed(c, e.f, e.ctr, s.recvCtr, rest, Eof);
  }

  lemma {:induction false} RunsKeepInv(c: Cipher, n: nat, actions: seq<Action>)
    requires c.Ideal() && Run(c, n, actions).Some?
    ensures Inv(c, Run(c, n, actions).value)
  {
    if actions != [] {
      var s, a := Run(c, n, actions[..|actions| - 1]).value, actions[|actions| - 1];
      RunsKeepInv(c, n, actions[..|actions| - 1]);
      StepKeepsLockInv(c, s, a);
      StepKeepsCounterInv(c, s, a);
      match a
      case WriteHeader(w) => WriteHeaderKeepsWireInv(c, s, w);
      case WriteBody(w) => WriteBodyKeepsWireInv(c, s, w);
      case Deliver => DeliverKeepsWireInv(c, s);
      case _ => QuietStepKeepsWireInv(c, s, a);
    }
  }

  // ----- What follows for every run -----

  /** The send counter counts the frames on the wire and the refused writes, and nothing else. */
  lemma {:induction false} CounterConservation(c: Cipher, n: nat, actions: seq<Action>)
    requires c.Ideal() && Run(c, n, actions).Some?
    ensures var s := Run(c, n, actions).value;
            && s.sendCtr == |s.sent| + s.refused + (if Holder(s).InFlight() then 1 else 0)
            && forall i :: 0 <= i < |s.sent| ==> s.sent[i].ctr == i + s.sent[i].refusedBefore
  {
    RunsKeepInv(c, n, actions);
  }

  /** The size check refuses exactly the payloads above 65515 bytes. */
  lemma RefusedIff(c: Cipher, s: State, w: nat)
    requires c.Ideal() && w < |s.writers| && s.writers[w].Sealed?
    ensures Step(c, s, Refuse(w)).Some? <==> |s.writers[w].f.data| > 65515
    ensures Step(c, s, WriteHeader(w)).Some? <==> |s.writers[w].f.data| <= 65515
  {}

  ghost predicate SmallPayloads(actions: seq<Action>) {
    forall i :: 0 <= i < |actions| && actions[i].Call? ==> |actions[i].f.data| <= MAX_PAYLOAD
  }

  lemma {:induction false} SmallPayloadsAreNotRefused(c: Cipher, n: nat, actions: seq<Action>)
    requires c.Ideal() && Run(c, n, actions).Some? && SmallPayloads(actions)
    ensures var s := Run(c, n, actions).value;
            && s.refused == 0
            && forall w :: 0 <= w < n && !s.writers[w].Idle? && !s.writers[w].Finished? ==>
                 |s.writers[w].f.data| <= MAX_PAYLOAD
  {
    if actions != [] {
      var before, a := actions[..|actions| - 1], actions[|actions| - 1];
      SmallPayloadsAreNotRefused(c, n, before);
      if a.Refuse? {
        RefusedIff(c, Run(c, n, before).value, a.w);
      }
    }
  }

  /**
   With payloads of at most 65515 bytes the two counters stay in lockstep, whatever the interleaving:
   the i-th frame on the wire is sealed at i, the receiver's counter is the number of frames it has
   read, what it delivered is a prefix of what was sent with types cut to 16 bits, and whenever it is
   behind, the next frame opens and is the next one sent.
   */
  lemma {:induction false} Lockstep(c: Cipher, n: nat, actions: seq<Action>)
    requires c.Ideal() && Run(c, n, actions).Some? && SmallPayloads(actions)
    ensures var s := Run(c, n, actions).value;
            && (forall i :: 0 <= i < |s.sent| ==> s.sent[i].ctr == i)
            && !s.broken && s.recvCtr == |s.delivered| <= |s.sent|
            && (forall i :: 0 <= i < |s.delivered| ==> s.delivered[i] == CutType(s.sent[i].f))
            && (|s.delivered| < |s.sent| ==>
                  var t := Step(c, s, Deliver);
                  t.Some? && !t.value.broken && t.value.delivered == s.delivered + [CutType(s.sent[|s.delivered|].f)])
  {
    RunsKeepInv(c, n, actions);
    SmallPayloadsAreNotRefused(c, n, actions);
    var s := Run(c, n, actions).value;
    if |s.delivered| < |s.sent| {
      NextFrame(c, s);
    }
  }

  /** A frame reaches a receiver that has kept pace with the wire exactly when no write was refused before it. */
  lemma {:induction false} OpensIff(c: Cipher, n: nat, actions: seq<Action>, i: nat, rest: seq<byte>, end: ReadError)
    requires c.Ideal() && Run(c, n, actions).Some? && i < |Run(c, n, actions).value.sent|
    ensures var e := Run(c, n, actions).value.sent[i];
            Receive(c, i, Wrap(SealedBytes(c, e.f, e.ctr)) + rest, end).0 ==
            if e.refusedBefore == 0 then Ok(CutType(e.f), rest) else Err(DecryptFailed, rest)
  {
    RunsKeepInv(c, n, actions);
    var e := Run(c, n, actions).value.sent[i];
    ReceiveSealed(c, e.f, e.ctr, i, rest, end);
  }

  /** t has more on the wire than s, all of it sealed after the writes that s had refused. */
  ghost predicate Grows(s: State, t: State) {
    && s.sent <= t.sent && s.refused <= t.refused
    && forall i :: |s.sent| <= i < |t.sent| ==> t.sent[i].refusedBefore >= s.refused
  }

  lemma StepGrows(c: Cipher, s: State, t: State, a: Action)
    requires Grows(s, t) && Step(c, t, a).Some?
    ensures Grows(s, Step(c, t, a).value)
  {
    var u := Step(c, t, a).value;
    if a.WriteBody? {
      assert u.sent == t.sent + [Entry(t.writers[a.w].f, t.writers[a.w].ctr, t.refused)];
    } else {
      assert u.sent == t.sent;
    }
  }

  lemma {:induction false} RunsGrow(c: Cipher, n: nat, actions: seq<Action>, more: seq<Action>)
    requires Run(c, n, actions + more).Some?
    ensures Run(c, n, actions).Some? && Grows(Run(c, n, actions).value, Run(c, n, actions + more).value)
  {
    if more == [] {
      assert actions + more == actions;
    } else {
      var before, last := more[..|more| - 1], more[|more| - 1];
      assert actions + more == (actions + before) + [last];
      RunOneMore(c, n, actions + before, last);
      RunsGrow(c, n, actions, before);
      StepGrows(c, Run(c, n, actions).value, Run(c, n, actions + before).value, last);
    }
  }

  lemma RunOneMore(c: Cipher, n: nat, actions: seq<Action>, a: Action)
    ensures Run(c, n, actions + [a]) ==
            if Run(c, n, actions).None? then None else Step(c, Run(c, n, actions).value, a)
  {
    assert (actions + [a])[..|actions|] == actions;
  }

  /**
   One refused write ends the conversation: in every continuation, no frame written after it opens at
   the receiver's counter, and the receiver never gets past the frames written before it.
   */
  lemma RefusalIsFinal(c: Cipher, n: nat, actions: seq<Action>, more: seq<Action>)
    requires c.Ideal() && Run(c, n, actions + more).Some?
    requires Run(c, n, actions).Some? && Run(c, n, actions).value.refused > 0
    ensures var s, t := Run(c, n, actions).value, Run(c, n, actions + more).value;
            && |t.delivered| <= |s.sent|
            && forall i :: |s.sent| <= i < |t.sent| ==>
                 c.unseal(t.recvCtr, SealedBytes(c, t.sent[i].f, t.sent[i].ctr)) == None
  {
    RunsKeepInv(c, n, actions + more);
    RunsGrow(c, n, actions, more);
    var s, t := Run(c, n, actions).value, Run(c, n, actions + more).value;
    if |s.sent| < |t.sent| {
      assert t.sent[|s.sent|].refusedBefore > 0;
    }
  }

  /** A step of the only writer. */
  lemma Advance(c: Cipher, actions: seq<Action>, s: State, a: Action, t: State)
    requires Run(c, 1, actions) == Some(s) && Step(c, s, a).Some?
    requires t == Step(c, s, a).value.(writers := t.writers) && t.writers == [Step(c, s, a).value.writers[0]]
    ensures Run(c, 1, actions + [a]) == Some(t)
  {
    RunOneMore(c, 1, actions, a);
    assert Step(c, s, a).value.writers == t.writers;
  }

  /** One goroutine that sends too much data is enough to get there. */
  lemma RefusalHappens(c: Cipher, big: Frame)
    requires c.Ideal() && |big.data| > MAX_PAYLOAD
    ensures Run(c, 1, [Call(0, big), Lock(0), Encrypt(0), Refuse(0), Unlock(0)]) ==
            Some(State([Idle], None, 1, [], 1, [], 0, [], false))
  {
    var s0 := State([Idle], None, 0, [], 0, [], 0, [], false);
    assert Init(1).writers == [Idle];
    var s1, s2 := s0.(writers := [Ready(big)]), s0.(writers := [Locked(big)], lock := Some(0));
    var s3 := s2.(writers := [Sealed(big, 0)], sendCtr := 1);
    var s4 := s3.(writers := [Finished], refused := 1);
    var a1, a2 := [Call(0, big)], [Call(0, big), Lock(0)];
    Advance(c, [], s0, Call(0, big), s1);
    Advance(c, a1, s1, Lock(0), s2);
    Advance(c, a2, s2, Encrypt(0), s3);
    Advance(c, a2 + [Encrypt(0)], s3, Refuse(0), s4);
    Advance(c, a2 + [Encrypt(0)] + [Refuse(0)], s4, Unlock(0), s4.(writers := [Idle], lock := None));
    assert [] + a1 == a1 && a1 + [Lock(0)] == a2;
    assert a2 + [Encrypt(0)] + [Refuse(0)] + [Unlock(0)] == [Call(0, big), Lock(0), Encrypt(0), Refuse(0), Unlock(0)];
  }
}
