/**
 Goroutines sending frames on one plain connection. Every Write call is a step of its own, so steps of
 different writers interleave in any way the mutex allows.
 */
module Writers {
  import opened Bytes
  import opened Codec

  datatype Writer =
    | Idle
    | Waiting(f: Frame)          // has marshalled its message, has not got the mutex yet
    | Writing(f: Frame, k: nat)  // inside WriteFrame, k of its Write calls made

  datatype Entry = Entry(writer: nat, f: Frame)

  datatype State = State(
    writers: seq<Writer>,
    lock: Option<nat>,
    wire: seq<byte>,
    order: seq<Entry>,        // who took the mutex with which frame, in that order
    issued: seq<seq<Frame>>)  // the frames each writer was asked to send, in that order

  datatype Action = Call(w: nat, f: Frame) | Lock(w: nat) | Write(w: nat) | Unlock(w: nat)

  function Init(n: nat): State {
    State(seq(n, _ => Idle), None, [], [], seq(n, _ => []))
  }

  /** One step; None when the writer is not at that point of its code, or the mutex is taken. */
  function Step(s: State, a: Action): Option<State>
    requires |s.issued| == |s.writers|
    ensures var t := Step(s, a); t.Some? ==> |t.value.issued| == |t.value.writers| == |s.writers|
  {
    if a.w >= |s.writers| then None else
    match (a, s.writers[a.w])
    case (Call(w, f), Idle) =>
      Some(s.(writers := s.writers[w := Waiting(f)], issued := s.issued[w := s.issued[w] + [f]]))
    case (Lock(w), Waiting(f)) =>
      if s.lock != None then None
      else Some(s.(writers := s.writers[w := Writing(f, 0)], lock := Some(w), order := s.order + [Entry(w, f)]))
    case (Write(w), Writing(f, k)) =>
      if k >= |Writes(f)| then None
      else Some(s.(writers := s.writers[w := Writing(f, k + 1)], wire := s.wire + Writes(f)[k]))
    case (Unlock(w), Writing(f, k)) =>
      if k < |Writes(f)| then None
      else Some(s.(writers := s.writers[w := Idle], lock := None))
    case _ => None
  }

  /** The state after a run, None if some step of it was not possible. */
  function Run(n: nat, actions: seq<Action>): (s: Option<State>)
    ensures s.Some? ==> |s.value.issued| == |s.value.writers| == n
  {
    if actions == [] then Some(Init(n)) else
    match Run(n, actions[..|actions| - 1])
    case None => None
    case Some(s) => Step(s, actions[|actions| - 1])
  }

  function Frames(order: seq<Entry>): (fs: seq<Frame>)
    ensures |fs| == |order|
  {
    seq(|order|, i requires 0 <= i < |order| => order[i].f)
  }

  /** The frames that writer w put in the order. */
  function Of(order: seq<Entry>, w: nat): seq<Frame> {
    if order == [] then []
    else
      var last := order[|order| - 1];
      Of(order[..|order| - 1], w) + if last.writer == w then [last.f] else []
  }

  /** The frames that are on the wire completely, and the part of the next one that is. */
  function Complete(s: State): seq<Entry>
    requires s.lock.Some? ==> s.order != []
  {
    if s.lock == None then s.order else s.order[..|s.order| - 1]
  }

  function Partial(s: State): seq<byte>
    requires s.lock.Some? ==> s.lock.value < |s.writers|
  {
    if s.lock == None then []
    else match s.writers[s.lock.value]
      case Writing(f, k) => Flatten(Writes(f)[..if k <= |Writes(f)| then k else |Writes(f)|])
      case _ => []
  }

  ghost predicate Inv(s: State) {
    && |s.issued| == |s.writers|
    && (forall w :: 0 <= w < |s.writers| ==> (s.writers[w].Writing? <==> s.lock == Some(w)))
    && (s.lock.Some? ==>
          && s.lock.value < |s.writers|
          && s.writers[s.lock.value].k <= |Writes(s.writers[s.lock.value].f)|
          && s.order != []
          && s.order[|s.order| - 1] == Entry(s.lock.value, s.writers[s.lock.value].f))
    && (forall i :: 0 <= i < |s.order| ==> s.order[i].writer < |s.writers|)
    && s.wire == EncodeAll(Frames(Complete(s))) + Partial(s)
    && (forall w :: 0 <= w < |s.writers| ==>
          s.issued[w] == Of(s.order, w) + if s.writers[w].Waiting? then [s.writers[w].f] else [])
  }

  lemma OfAppend(order: seq<Entry>, e: Entry, w: nat)
    ensures Of(order + [e], w) == Of(order, w) + if e.writer == w then [e.f] else []
  {
    assert (order + [e])[..|order|] == order;
  }

  lemma CallKeepsInv(s: State, w: nat, f: Frame)
    requires Inv(s) && Step(s, Call(w, f)).Some?
    ensures Inv(Step(s, Call(w, f)).value)
  {}

  lemma LockKeepsInv(s: State, w: nat)
    requires Inv(s) && Step(s, Lock(w)).Some?
    ensures Inv(Step(s, Lock(w)).value)
  {
    var t := Step(s, Lock(w)).value;
    assert t.order[..|t.order| - 1] == s.order;
    assert Partial(t) == [];
    forall v | 0 <= v < |s.writers| {
      OfAppend(s.order, Entry(w, s.writers[w].f), v);
    }
  }

  lemma WriteKeepsInv(s: State, w: nat)
    requires Inv(s) && Step(s, Write(w)).Some?
    ensures Inv(Step(s, Write(w)).value)
  {
    var f, k := s.writers[w].f, s.writers[w].k;
    FlattenOne(Writes(f)[..k], Writes(f)[k]);
    assert Writes(f)[..k] + [Writes(f)[k]] == Writes(f)[..k + 1];
    Associate(EncodeAll(Frames(Complete(s))), Partial(s), Writes(f)[k]);
  }

  lemma UnlockKeepsInv(s: State, w: nat)
    requires Inv(s) && Step(s, Unlock(w)).Some?
    ensures Inv(Step(s, Unlock(w)).value)
  {
    var f := s.writers[w].f;
    assert Writes(f)[..|Writes(f)|] == Writes(f);
    WritesSpellTheFrame(f);
    EncodeAllAppend(Frames(Complete(s)), [f]);
    assert Frames(s.order) == Frames(Complete(s)) + [f];
    assert EncodeAll([f]) == Encode(f) + EncodeAll([]);
  }

  /** The invariant holds after every run of any number of writers. */
  lemma {:induction false} RunsKeepInv(n: nat, actions: seq<Action>)
    requires Run(n, actions).Some?
    ensures Inv(Run(n, actions).value)
  {
    if actions != [] {
      var s, a := Run(n, actions[..|actions| - 1]).value, actions[|actions| - 1];
      RunsKeepInv(n, actions[..|actions| - 1]);
      match a
      case Call(w, f) => CallKeepsInv(s, w, f);
      case Lock(w) => LockKeepsInv(s, w);
      case Write(w) => WriteKeepsInv(s, w);
      case Unlock(w) => UnlockKeepsInv(s, w);
    }
  }

  ghost predicate WithinLimit(s: State) {
    forall w, i :: 0 <= w < |s.issued| && 0 <= i < |s.issued[w]| ==> |s.issued[w][i].data| <= MAX_MESSAGE_SIZE
  }

  /** The holder of the mutex has made its last Write call but has not returned yet. */
  predicate AllWritten(s: State)
    requires s.lock.Some? ==> s.lock.value < |s.writers|
  {
    s.lock.Some? && match s.writers[s.lock.value] case Writing(f, k) => k == |Writes(f)| case _ => false
  }

  lemma {:induction false} OrderIsIssued(order: seq<Entry>, i: nat)
    requires i < |order|
    ensures exists j :: 0 <= j < |Of(order, order[i].writer)| && Of(order, order[i].writer)[j] == order[i].f
  {
    var w, n := order[i].writer, |order| - 1;
    if i == n {
      assert Of(order, w)[|Of(order, w)| - 1] == order[i].f;
    } else {
      OrderIsIssued(order[..n], i);
      var j :| 0 <= j < |Of(order[..n], w)| && Of(order[..n], w)[j] == order[i].f;
      assert Of(order, w)[j] == order[i].f;
    }
  }

  /** The frames a reader gets: those of completed calls, and the holder's once its last byte is out. */
  function Delivered(s: State): seq<Entry>
    requires s.lock.Some? ==> s.order != [] && s.lock.value < |s.writers|
  {
    if AllWritten(s) then s.order else Complete(s)
  }

  lemma OrderWithinLimit(s: State)
    requires Inv(s) && WithinLimit(s)
    ensures Sendable(Frames(s.order)) && Sendable(Frames(Complete(s)))
    ensures s.lock.Some? ==> |s.writers[s.lock.value].f.data| <= MAX_MESSAGE_SIZE
  {
    forall i | 0 <= i < |s.order| ensures |s.order[i].f.data| <= MAX_MESSAGE_SIZE {
      OrderIsIssued(s.order, i);
      var w := s.order[i].writer;
      var j :| 0 <= j < |Of(s.order, w)| && Of(s.order, w)[j] == s.order[i].f;
      assert s.issued[w][j] == s.order[i].f;
    }
  }

  lemma PartialIsStarved(f: Frame, k: nat, end: ReadError)
    requires |f.data| <= MAX_MESSAGE_SIZE && k < |Writes(f)|
    ensures var r := DecodeAll(Flatten(Writes(f)[..k]), end);
            r.frames == [] && r.error.Starved() && r.rest == []
  {
    var part, others := Writes(f)[..k], Writes(f)[k..];
    assert part + others == Writes(f);
    FlattenAppend(part, others);
    WritesSpellTheFrame(f);
    assert others[0] == Writes(f)[k] && Writes(f)[k] != [];
    assert Encode(f)[..|Flatten(part)|] == Flatten(part);
    PartialFrame(f, |Flatten(part)|, end);
  }

  lemma PartialDecoded(s: State, end: ReadError)
    requires Inv(s) && WithinLimit(s)
    ensures var r := DecodeAll(Partial(s), end);
            && r.frames == (if AllWritten(s) then [s.writers[s.lock.value].f] else [])
            && r.error.Starved() && r.rest == []
            && (s.lock == None ==> r.error == PreambleErr(end))
  {
    OrderWithinLimit(s);
    if s.lock.Some? {
      var f, k := s.writers[s.lock.value].f, s.writers[s.lock.value].k;
      if k < |Writes(f)| {
        PartialIsStarved(f, k, end);
      } else {
        assert Writes(f)[..k] == Writes(f);
        WritesSpellTheFrame(f);
        DecodeAllStep(f, [], end);
        assert Encode(f) + [] == Encode(f);
      }
    }
  }

  lemma DeliveredFrames(s: State)
    requires Inv(s)
    ensures Frames(Delivered(s)) == Frames(Complete(s)) + if AllWritten(s) then [s.writers[s.lock.value].f] else []
  {}

  lemma DecodedFrames(s: State, end: ReadError)
    requires Inv(s) && WithinLimit(s)
    ensures var r := DecodeAll(s.wire, end);
            && r.frames == Frames(Delivered(s))
            && r.error.Starved() && r.rest == []
            && (s.lock == None ==> r.error == PreambleErr(end))
  {
    OrderWithinLimit(s);
    PartialDecoded(s, end);
    RoundTripAll(Frames(Complete(s)), Partial(s), end);
    DeliveredFrames(s);
  }

  lemma OwnFramesInOrder(s: State, w: nat)
    requires Inv(s) && w < |s.writers|
    ensures Of(Delivered(s), w) <= s.issued[w] && |s.issued[w]| <= |Of(Delivered(s), w)| + 1
  {
    if s.lock.Some? {
      var e := Entry(s.lock.value, s.writers[s.lock.value].f);
      assert s.order == Complete(s) + [e];
      OfAppend(Complete(s), e, w);
    }
  }

  /**
   In every reachable state a reader of the wire gets exactly the frames written so far, whole, in the
   order of the mutex, and then waits for more: interleaved calls never tear a frame. Each writer finds
   its own frames there in the order it issued them, with none lost, added or repeated.
   */
  lemma ReadBack(n: nat, actions: seq<Action>, end: ReadError)
    requires Run(n, actions).Some? && WithinLimit(Run(n, actions).value)
    ensures Inv(Run(n, actions).value)
    ensures var s := Run(n, actions).value;
            var r := DecodeAll(s.wire, end);
            && r.frames == Frames(Delivered(s))
            && r.error.Starved() && r.rest == []
            && (s.lock == None ==> r.error == PreambleErr(end))
            && forall w :: 0 <= w < n ==>
                 Of(Delivered(s), w) <= s.issued[w] && |s.issued[w]| <= |Of(Delivered(s), w)| + 1
  {
    RunsKeepInv(n, actions);
    DecodedFrames(Run(n, actions).value, end);
    forall w | 0 <= w < n {
      OwnFramesInOrder(Run(n, actions).value, w);
    }
  }
}
