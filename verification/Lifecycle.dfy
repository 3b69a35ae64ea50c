/**
 The goroutines of a client over its whole life: read loops, reconnect loops, keepalive loops and calls of
 Close, interleaved step by step. They share the done channel, the framer, the connected and closed
 flags and the registry; time, the network and the user decide which step comes next.
 */
module Lifecycle {
  import opened Bytes

  datatype ReadPc =
    | Start                 // launched, has not evaluated c.done for its deferred close
    | Reading
    | Dispatching(conn: nat)
    | ReadFailed                // the read returned an error
    | Checking              // about to look at the context
    | Alive                 // the context was not cancelled
    | Returning             // past the launch of a reconnect loop, its deferred close still to come

  datatype ReconnectPc =
    | Waiting | Replacing | Clearing | Dialing | Handshaking | Failing | Marking | Reopening | Launching
    | LaunchingKeepalive | Announcing   // lists the entities, subscribes again, calls back

  datatype KeepalivePc = Ticking | Looking | Pinging | HangingUp

  datatype ClosePc = Locking | Disconnecting | Cancelling | ClosingFramer

  datatype Goroutine =
    | ReadLoop(rpc: ReadPc, done: nat)
    | Reconnect(cpc: ReconnectPc)
    | Keepalive(kpc: KeepalivePc)
    | Closer(xpc: ClosePc)
    | Gone

  /** The deferred close of a done channel: which generation, and by which goroutine. */
  datatype ChannelClose = ChannelClose(gen: nat, closer: nat)

  /** What the goroutines share. */
  datatype Shared = Shared(
    done: nat,                  // the generation that c.done refers to
    gens: nat,                  // how many done channels were made
    framer: nat,                // the connection that c.framer refers to
    conns: nat,                 // how many connections were made
    connected: bool,
    closed: bool,
    cancelled: bool,            // the context
    reconnects: bool,           // c.reconnectInterval > 0
    closeMu: Option<nat>,
    registry: seq<nat>,         // for each entry, the connection that brought it
    captured: map<nat, nat>,    // generation -> the read loop that will close it
    readers: map<nat, nat>,     // connection -> the read loop that reads it
    closes: seq<ChannelClose>)

  datatype State = State(threads: seq<Goroutine>, sh: Shared)

  /** A goroutine moves on; the choice is whatever the network, the clock or the scheduler decides at this point. */
  datatype Action = Move(g: nat, choice: bool) | UserClose | CancelContext | DisableReconnect

  /** What a goroutine becomes, whom it launches, and what it does to the shared part. */
  datatype Outcome = Outcome(x: Goroutine, launched: seq<Goroutine>, sh: Shared)

  /** The client that Dial returns: connected, with its first read loop just launched. */
  function Init(reconnects: bool, keepalive: bool): State {
    State([ReadLoop(Start, 0)] + if keepalive then [Keepalive(Ticking)] else [],
          Shared(0, 1, 0, 1, true, false, false, reconnects, None, [], map[], map[], []))
  }

  /** choice: a frame came (not an error); the message was stored in the registry. */
  function ReadMove(sh: Shared, g: nat, pc: ReadPc, gen: nat, choice: bool): Outcome {
    match pc
    case Start =>
      Outcome(ReadLoop(Reading, sh.done), [],
              sh.(captured := sh.captured[sh.done := g], readers := sh.readers[sh.framer := g]))
    case Reading => Outcome(ReadLoop(if choice then Dispatching(sh.framer) else ReadFailed, gen), [], sh)
    case Dispatching(conn) =>
      Outcome(ReadLoop(Reading, gen), [], if choice then sh.(registry := sh.registry + [conn]) else sh)
    case ReadFailed => Outcome(ReadLoop(Checking, gen), [], sh.(connected := false))
    case Checking => Outcome(ReadLoop(if sh.cancelled then Returning else Alive, gen), [], sh)
    case Alive => Outcome(ReadLoop(Returning, gen), if sh.reconnects then [Reconnect(Waiting)] else [], sh)
    case Returning => Outcome(Gone, [], sh.(closes := sh.closes + [ChannelClose(gen, g)]))
  }

  /** choice: the timer won (not the context); dialing or the handshake succeeded; keepalive is enabled. */
  function ReconnectMove(sh: Shared, pc: ReconnectPc, choice: bool): Option<Outcome> {
    match pc
    case Waiting =>
      if choice then Some(Outcome(Reconnect(Replacing), [], sh))
      else if sh.cancelled then Some(Outcome(Gone, [], sh))
      else None
    case Replacing => Some(Outcome(Reconnect(Clearing), [], sh.(done := sh.gens, gens := sh.gens + 1)))
    case Clearing => Some(Outcome(Reconnect(Dialing), [], sh.(registry := [])))
    case Dialing =>
      if choice then Some(Outcome(Reconnect(Handshaking), [], sh.(framer := sh.conns, conns := sh.conns + 1)))
      else Some(Outcome(Reconnect(Waiting), [], sh))
    case Handshaking => Some(Outcome(Reconnect(if choice then Marking else Failing), [], sh))
    case Failing => Some(Outcome(Reconnect(Waiting), [], sh))
    case Marking => Some(Outcome(Reconnect(Reopening), [], sh.(connected := true)))
    case Reopening => if sh.closeMu != None then None else Some(Outcome(Reconnect(Launching), [], sh.(closed := false)))
    case Launching => Some(Outcome(Reconnect(LaunchingKeepalive), [ReadLoop(Start, 0)], sh))
    case LaunchingKeepalive => Some(Outcome(Reconnect(Announcing), if choice then [Keepalive(Ticking)] else [], sh))
    case Announcing => Some(Outcome(Gone, [], sh))
  }

  /** choice: the ticker won (not the context or the done channel); the ping was answered. */
  function KeepaliveMove(sh: Shared, pc: KeepalivePc, choice: bool): Option<Outcome> {
    match pc
    case Ticking => Some(Outcome(if choice then Keepalive(Looking) else Gone, [], sh))
    case Looking => Some(Outcome(if sh.connected then Keepalive(Pinging) else Gone, [], sh))
    case Pinging => Some(Outcome(Keepalive(if choice then Ticking else HangingUp), [], sh))
    case HangingUp => if sh.closeMu != None then None else Some(Outcome(Gone, [], sh))
  }

  function CloseMove(sh: Shared, g: nat, pc: ClosePc): Option<Outcome> {
    match pc
    case Locking =>
      if sh.closeMu != None then None
      else if sh.closed then Some(Outcome(Gone, [], sh))
      else Some(Outcome(Closer(Disconnecting), [], sh.(closeMu := Some(g), closed := true)))
    case Disconnecting => Some(Outcome(Closer(Cancelling), [], sh.(connected := false)))
    case Cancelling => Some(Outcome(Closer(ClosingFramer), [], sh.(cancelled := true)))
    case ClosingFramer => Some(Outcome(Gone, [], sh.(closeMu := None)))
  }

  function MoveOf(sh: Shared, g: nat, thread: Goroutine, choice: bool): Option<Outcome> {
    match thread
    case ReadLoop(pc, gen) => Some(ReadMove(sh, g, pc, gen, choice))
    case Reconnect(pc) => ReconnectMove(sh, pc, choice)
    case Keepalive(pc) => KeepaliveMove(sh, pc, choice)
    case Closer(pc) => CloseMove(sh, g, pc)
    case Gone => None
  }

  function Step(s: State, a: Action): Option<State> {
    match a
    case Move(g, choice) =>
      if g >= |s.threads| then None else
      (match MoveOf(s.sh, g, s.threads[g], choice)
       case None => None
       case Some(o) => Some(State(s.threads[g := o.x] + o.launched, o.sh)))
    case UserClose => Some(s.(threads := s.threads + [Closer(Locking)]))
    case CancelContext => Some(s.(sh := s.sh.(cancelled := true)))
    case DisableReconnect => Some(s.(sh := s.sh.(reconnects := false)))
  }

  function Exec(s: State, actions: seq<Action>): Option<State>
    decreases |actions|
  {
    if actions == [] then Some(s) else
    match Step(s, actions[0])
    case None => None
    case Some(t) => Exec(t, actions[1..])
  }

  // ----- The invariant -----

  /** A read loop before its launch of a reconnect loop, or a reconnect loop before its launch of a read loop. */
  predicate Owner(g: Goroutine) {
    match g
    case ReadLoop(pc, _) => !pc.Returning?
    case Reconnect(pc) => !pc.LaunchingKeepalive? && !pc.Announcing?
    case _ => false
  }

  ghost predicate OneOwner(s: State) {
    forall g, h :: 0 <= g < |s.threads| && 0 <= h < |s.threads| && Owner(s.threads[g]) && Owner(s.threads[h]) ==> g == h
  }

  /** A generation belongs to the read loop that captured it, and is closed by it once, as its last step. */
  ghost predicate GenerationInv(s: State) {
    && s.sh.done < s.sh.gens
    && (forall gen <- s.sh.captured :: gen < s.sh.gens && s.sh.captured[gen] < |s.threads|)
    && (forall g :: 0 <= g < |s.threads| && Captured(s.threads[g]) ==>
          s.threads[g].done in s.sh.captured && s.sh.captured[s.threads[g].done] == g)
    && (forall c <- s.sh.closes ::
          c.gen in s.sh.captured && s.sh.captured[c.gen] == c.closer && s.threads[c.closer] == Gone)
    && (forall i, j :: 0 <= i < j < |s.sh.closes| ==> s.sh.closes[i].gen != s.sh.closes[j].gen)
    && (forall g :: 0 <= g < |s.threads| && Owner(s.threads[g]) ==> DoneOfOwner(s.sh, s.threads[g]))
  }

  predicate Captured(g: Goroutine) {
    g.ReadLoop? && !g.rpc.Start?
  }

  predicate DoneOfOwner(sh: Shared, g: Goroutine) {
    match g
    case ReadLoop(pc, gen) => if pc.Start? then sh.done !in sh.captured else sh.done == gen
    case Reconnect(pc) => !pc.Waiting? && !pc.Replacing? ==> sh.done !in sh.captured
    case _ => true
  }

  /** Entries come from the connection that the owner reads. */
  ghost predicate RegistryInv(s: State) {
    forall g :: 0 <= g < |s.threads| && Owner(s.threads[g]) ==> RegistryOfOwner(s.sh, s.threads[g])
  }

  ghost predicate RegistryOfOwner(sh: Shared, g: Goroutine) {
    match g
    case ReadLoop(pc, _) =>
      && (pc.Start? ==> sh.registry == [])
      && (pc.Dispatching? ==> pc.conn == sh.framer)
      && forall c <- sh.registry :: c == sh.framer
    case Reconnect(pc) => !pc.Waiting? && !pc.Replacing? && !pc.Clearing? ==> sh.registry == []
    case _ => true
  }

  /** The connected flag is up only while somebody serves the connection. */
  predicate Serves(g: Goroutine) {
    match g
    case ReadLoop(pc, _) => pc.Start? || pc.Reading? || pc.Dispatching? || pc.ReadFailed?
    case Reconnect(pc) => pc.Reopening? || pc.Launching?
    case _ => false
  }

  ghost predicate ConnectedInv(s: State) {
    s.sh.connected ==> exists g :: 0 <= g < |s.threads| && Serves(s.threads[g])
  }

  /** A Close that is under way holds the mutex. */
  ghost predicate MutexInv(s: State) {
    forall g :: 0 <= g < |s.threads| && Closing(s.threads[g]) ==> s.sh.closeMu == Some(g)
  }

  predicate Closing(g: Goroutine) {
    g.Closer? && !g.xpc.Locking?
  }

  ghost predicate Inv(s: State) {
    OneOwner(s) && GenerationInv(s) && RegistryInv(s) && ConnectedInv(s) && MutexInv(s)
  }

  lemma InitInv(reconnects: bool, keepalive: bool)
    ensures Inv(Init(reconnects, keepalive))
  {
    assert Serves(Init(reconnects, keepalive).threads[0]);
  }

  // ----- One move -----

  /** What the connection owner alone may change. */
  predicate SameConnection(sh: Shared, o: Shared) {
    && o.done == sh.done && o.gens == sh.gens && o.captured == sh.captured
    && o.framer == sh.framer && o.conns == sh.conns && o.registry == sh.registry && o.readers == sh.readers
  }

  predicate PassesOwnership(sh: Shared, thread: Goroutine, o: Outcome) {
    && thread != Gone && |o.launched| <= 1
    && (Owner(o.x) ==> Owner(thread))
    && (o.launched != [] && Owner(o.launched[0]) ==> Owner(thread) && !Owner(o.x))
    && (o.launched != [] ==> !Captured(o.launched[0]))
    && (!Owner(thread) ==> SameConnection(sh, o.sh))
  }

  lemma ReadMovePasses(sh: Shared, g: nat, pc: ReadPc, gen: nat, choice: bool)
    ensures PassesOwnership(sh, ReadLoop(pc, gen), ReadMove(sh, g, pc, gen, choice))
  {}

  lemma ReconnectMovePasses(sh: Shared, pc: ReconnectPc, choice: bool)
    requires ReconnectMove(sh, pc, choice).Some?
    ensures PassesOwnership(sh, Reconnect(pc), ReconnectMove(sh, pc, choice).value)
  {}

  lemma KeepaliveMovePasses(sh: Shared, pc: KeepalivePc, choice: bool)
    requires KeepaliveMove(sh, pc, choice).Some?
    ensures PassesOwnership(sh, Keepalive(pc), KeepaliveMove(sh, pc, choice).value)
  {}

  lemma CloseMovePasses(sh: Shared, g: nat, pc: ClosePc)
    requires CloseMove(sh, g, pc).Some?
    ensures PassesOwnership(sh, Closer(pc), CloseMove(sh, g, pc).value)
  {}

  /** Ownership is passed on, never copied; only the owner touches the done channel, the framer and the registry. */
  lemma MovePassesOwnership(sh: Shared, g: nat, thread: Goroutine, choice: bool)
    requires MoveOf(sh, g, thread, choice).Some?
    ensures PassesOwnership(sh, thread, MoveOf(sh, g, thread, choice).value)
  {
    match thread
    case ReadLoop(pc, gen) => ReadMovePasses(sh, g, pc, gen, choice);
    case Reconnect(pc) => ReconnectMovePasses(sh, pc, choice);
    case Keepalive(pc) => KeepaliveMovePasses(sh, pc, choice);
    case Closer(pc) => CloseMovePasses(sh, g, pc);
  }

  lemma ReadMoveKeepsOwnerClaims(sh: Shared, g: nat, pc: ReadPc, gen: nat, choice: bool)
    requires !pc.Returning? && RegistryOfOwner(sh, ReadLoop(pc, gen)) && DoneOfOwner(sh, ReadLoop(pc, gen))
    ensures var o := ReadMove(sh, g, pc, gen, choice);
            && RegistryOfOwner(o.sh, o.x) && DoneOfOwner(o.sh, o.x)
            && (o.launched != [] ==> o.launched[0] == Reconnect(Waiting))
  {}

  lemma ReconnectMoveKeepsOwnerClaims(sh: Shared, pc: ReconnectPc, choice: bool)
    requires ReconnectMove(sh, pc, choice).Some? && Owner(Reconnect(pc))
    requires RegistryOfOwner(sh, Reconnect(pc)) && DoneOfOwner(sh, Reconnect(pc))
    requires forall gen <- sh.captured :: gen < sh.gens
    ensures var o := ReconnectMove(sh, pc, choice).value;
            && (Owner(o.x) ==> RegistryOfOwner(o.sh, o.x) && DoneOfOwner(o.sh, o.x))
            && (o.launched != [] ==> RegistryOfOwner(o.sh, o.launched[0]) && DoneOfOwner(o.sh, o.launched[0]))
  {}

  /** What the owner promises about the done channel and the registry, it or its successor promises after the move. */
  lemma MoveKeepsOwnerClaims(sh: Shared, g: nat, thread: Goroutine, choice: bool)
    requires MoveOf(sh, g, thread, choice).Some?
    requires Owner(thread) ==> RegistryOfOwner(sh, thread) && DoneOfOwner(sh, thread)
    requires forall gen <- sh.captured :: gen < sh.gens
    ensures var o := MoveOf(sh, g, thread, choice).value;
            && (Owner(o.x) ==> RegistryOfOwner(o.sh, o.x) && DoneOfOwner(o.sh, o.x))
            && (o.launched != [] && Owner(o.launched[0]) ==>
                  RegistryOfOwner(o.sh, o.launched[0]) && DoneOfOwner(o.sh, o.launched[0]))
  {
    MovePassesOwnership(sh, g, thread, choice);
    if Owner(thread) {
      match thread
      case ReadLoop(pc, gen) => ReadMoveKeepsOwnerClaims(sh, g, pc, gen, choice);
      case Reconnect(pc) => ReconnectMoveKeepsOwnerClaims(sh, pc, choice);
    }
  }

  lemma MoveKeepsServing(sh: Shared, g: nat, thread: Goroutine, choice: bool)
    requires MoveOf(sh, g, thread, choice).Some?
    ensures var o := MoveOf(sh, g, thread, choice).value;
            && (o.sh.connected && Serves(thread) ==> Serves(o.x) || (o.launched != [] && Serves(o.launched[0])))
            && (o.sh.connected && !sh.connected ==> Serves(o.x))
  {}

  // ----- Every step keeps the invariant -----

  lemma {:induction false} StepKeepsOneOwner(s: State, a: Action)
    requires OneOwner(s) && Step(s, a).Some?
    ensures OneOwner(Step(s, a).value)
  {
    if a.Move? {
      MovePassesOwnership(s.sh, a.g, s.threads[a.g], a.choice);
    }
  }

  lemma {:induction false} StepKeepsRegistry(s: State, a: Action)
    requires OneOwner(s) && GenerationInv(s) && RegistryInv(s) && Step(s, a).Some?
    ensures RegistryInv(Step(s, a).value)
  {
    if a.Move? {
      MovePassesOwnership(s.sh, a.g, s.threads[a.g], a.choice);
      MoveKeepsOwnerClaims(s.sh, a.g, s.threads[a.g], a.choice);
    }
  }

  lemma StepKeepsConnected(s: State, a: Action)
    requires ConnectedInv(s) && Step(s, a).Some?
    ensures ConnectedInv(Step(s, a).value)
  {
    var t := Step(s, a).value;
    if t.sh.connected {
      if s.sh.connected {
        var h :| 0 <= h < |s.threads| && Serves(s.threads[h]);
        if a.Move? && a.g == h {
          MoveKeepsServing(s.sh, h, s.threads[h], a.choice);
          var o := MoveOf(s.sh, h, s.threads[h], a.choice).value;
          assert t.threads[h] == o.x && (o.launched != [] ==> t.threads[|s.threads|] == o.launched[0]);
        } else {
          assert t.threads[h] == s.threads[h];
        }
      } else {
        MoveKeepsServing(s.sh, a.g, s.threads[a.g], a.choice);
        assert Serves(t.threads[a.g]);
      }
    }
  }

  lemma ReadMoveKeepsGenerations(sh: Shared, g: nat, pc: ReadPc, gen: nat, choice: bool)
    requires !pc.Start? && !pc.Returning?
    ensures var o := ReadMove(sh, g, pc, gen, choice);
            && o.sh.captured == sh.captured && o.sh.closes == sh.closes && sh.gens == o.sh.gens && o.sh.done == sh.done
            && (Captured(o.x) ==> o.x.done == gen)
  {}

  lemma ReconnectMoveKeepsGenerations(sh: Shared, pc: ReconnectPc, choice: bool)
    requires ReconnectMove(sh, pc, choice).Some?
    ensures var o := ReconnectMove(sh, pc, choice).value;
            && o.sh.captured == sh.captured && o.sh.closes == sh.closes && sh.gens <= o.sh.gens
            && (o.sh.done == sh.done || o.sh.done < o.sh.gens) && !Captured(o.x)
  {}

  /** Only the first and the last step of a read loop touch the record of captures and closes. */
  lemma MoveKeepsGenerations(sh: Shared, g: nat, thread: Goroutine, choice: bool)
    requires MoveOf(sh, g, thread, choice).Some? && !(thread.ReadLoop? && (thread.rpc.Start? || thread.rpc.Returning?))
    ensures var o := MoveOf(sh, g, thread, choice).value;
            && o.sh.captured == sh.captured && o.sh.closes == sh.closes && sh.gens <= o.sh.gens
            && (o.sh.done == sh.done || o.sh.done < o.sh.gens)
            && (Captured(o.x) ==> Captured(thread) && o.x.done == thread.done)
  {
    match thread
    case ReadLoop(pc, gen) => ReadMoveKeepsGenerations(sh, g, pc, gen, choice);
    case Reconnect(pc) => ReconnectMoveKeepsGenerations(sh, pc, choice);
    case _ =>
  }

  lemma CaptureKeepsGenerations(s: State, g: nat, choice: bool)
    requires OneOwner(s) && GenerationInv(s) && g < |s.threads| && s.threads[g].ReadLoop? && s.threads[g].rpc.Start?
    ensures GenerationInv(Step(s, Move(g, choice)).value)
  {
    assert Owner(s.threads[g]) && s.sh.done !in s.sh.captured;
  }

  lemma CloseKeepsGenerations(s: State, g: nat, choice: bool)
    requires GenerationInv(s) && g < |s.threads| && s.threads[g].ReadLoop? && s.threads[g].rpc.Returning?
    ensures GenerationInv(Step(s, Move(g, choice)).value)
  {
    var gen := s.threads[g].done;
    assert Captured(s.threads[g]) && s.sh.captured[gen] == g;
    forall c <- s.sh.closes ensures c.gen != gen {
      assert s.threads[c.closer] == Gone;
    }
    var t := Step(s, Move(g, choice)).value;
    assert t.threads == s.threads[g := Gone] && t.sh.closes == s.sh.closes + [ChannelClose(gen, g)];
    assert forall h :: 0 <= h < |t.threads| && t.threads[h] != Gone ==> t.threads[h] == s.threads[h];
  }

  lemma OtherMoveKeepsGenerations(s: State, g: nat, choice: bool)
    requires OneOwner(s) && GenerationInv(s) && RegistryInv(s) && Step(s, Move(g, choice)).Some?
    requires !(s.threads[g].ReadLoop? && (s.threads[g].rpc.Start? || s.threads[g].rpc.Returning?))
    ensures GenerationInv(Step(s, Move(g, choice)).value)
  {
    MovePassesOwnership(s.sh, g, s.threads[g], choice);
    MoveKeepsGenerations(s.sh, g, s.threads[g], choice);
    MoveKeepsOwnerClaims(s.sh, g, s.threads[g], choice);
  }

  lemma {:induction false} StepKeepsGenerations(s: State, a: Action)
    requires OneOwner(s) && GenerationInv(s) && RegistryInv(s) && Step(s, a).Some?
    ensures GenerationInv(Step(s, a).value)
  {
    if a.Move? {
      var thread := s.threads[a.g];
      if thread.ReadLoop? && thread.rpc.Start? { CaptureKeepsGenerations(s, a.g, a.choice); }
      else if thread.ReadLoop? && thread.rpc.Returning? { CloseKeepsGenerations(s, a.g, a.choice); }
      else { OtherMoveKeepsGenerations(s, a.g, a.choice); }
    }
  }

  lemma MoveKeepsMutex(sh: Shared, g: nat, thread: Goroutine, choice: bool)
    requires MoveOf(sh, g, thread, choice).Some? && (Closing(thread) ==> sh.closeMu == Some(g))
    ensures KeepsMutex(sh, g, thread, MoveOf(sh, g, thread, choice).value)
  {
    match thread
    case ReadLoop(pc, gen) => ReadMoveKeepsMutex(sh, g, pc, gen, choice);
    case Reconnect(pc) => ReconnectMoveKeepsMutex(sh, g, pc, choice);
    case _ =>
  }

  predicate KeepsMutex(sh: Shared, g: nat, thread: Goroutine, o: Outcome) {
    && (Closing(o.x) ==> o.sh.closeMu == Some(g))
    && (o.sh.closeMu != sh.closeMu ==> sh.closeMu == None || (Closing(thread) && !Closing(o.x)))
    && (o.launched != [] ==> !Closing(o.launched[0]) && |o.launched| == 1)
  }

  lemma ReadMoveKeepsMutex(sh: Shared, g: nat, pc: ReadPc, gen: nat, choice: bool)
    ensures KeepsMutex(sh, g, ReadLoop(pc, gen), ReadMove(sh, g, pc, gen, choice))
  {}

  lemma ReconnectMoveKeepsMutex(sh: Shared, g: nat, pc: ReconnectPc, choice: bool)
    requires ReconnectMove(sh, pc, choice).Some?
    ensures KeepsMutex(sh, g, Reconnect(pc), ReconnectMove(sh, pc, choice).value)
  {}

  lemma StepKeepsMutex(s: State, a: Action)
    requires MutexInv(s) && Step(s, a).Some?
    ensures MutexInv(Step(s, a).value)
  {
    if a.Move? {
      MoveKeepsMutex(s.sh, a.g, s.threads[a.g], a.choice);
    }
  }

  lemma {:induction false} RunKeepsInv(s: State, actions: seq<Action>)
    requires Inv(s) && Exec(s, actions).Some?
    ensures Inv(Exec(s, actions).value)
    decreases |actions|
  {
    if actions != [] {
      StepKeepsOneOwner(s, actions[0]);
      StepKeepsGenerations(s, actions[0]);
      StepKeepsRegistry(s, actions[0]);
      StepKeepsConnected(s, actions[0]);
      StepKeepsMutex(s, actions[0]);
      RunKeepsInv(Step(s, actions[0]).value, actions[1..]);
    }
  }

  // ----- What follows for every run of a client -----

  ghost predicate Reachable(s: State) {
    exists reconnects, keepalive, actions :: Exec(Init(reconnects, keepalive), actions) == Some(s)
  }

  lemma ReachableInv(s: State)
    requires Reachable(s)
    ensures Inv(s)
  {
    var reconnects, keepalive, actions :| Exec(Init(reconnects, keepalive), actions) == Some(s);
    InitInv(reconnects, keepalive);
    RunKeepsInv(Init(reconnects, keepalive), actions);
  }

  /** About to read frames from the framer, to replace the framer or the done channel, or to change the registry. */
  predicate UsesConnection(g: Goroutine) {
    match g
    case ReadLoop(pc, _) => pc.Start? || pc.Reading? || pc.Dispatching?
    case Reconnect(pc) => pc.Replacing? || pc.Clearing? || pc.Dialing? || pc.Handshaking? || pc.Failing?
    case _ => false
  }

  /**
   No two goroutines are ever both at a point where they read the framer, replace it or the done channel, or
   fill or clear the registry.
   */
  lemma ExclusiveConnection(s: State, g: nat, h: nat)
    requires Reachable(s) && g < |s.threads| && h < |s.threads|
    requires UsesConnection(s.threads[g]) && UsesConnection(s.threads[h])
    ensures g == h
  {
    ReachableInv(s);
    assert Owner(s.threads[g]) && Owner(s.threads[h]);
  }

  /** Only such a goroutine's step changes them. */
  lemma OnlyUsersChange(s: State, a: Action)
    requires Step(s, a).Some?
    ensures var t := Step(s, a).value;
            t.sh.done != s.sh.done || t.sh.framer != s.sh.framer || t.sh.registry != s.sh.registry ==>
              a.Move? && UsesConnection(s.threads[a.g])
  {
    if a.Move? {
      var thread := s.threads[a.g];
      MovePassesOwnership(s.sh, a.g, thread, a.choice);
      match thread
      case ReadLoop(pc, gen) => if !UsesConnection(thread) { ReadMoveUses(s.sh, a.g, pc, gen, a.choice); }
      case Reconnect(pc) => if !UsesConnection(thread) { ReconnectMoveUses(s.sh, pc, a.choice); }
      case _ =>
    }
  }

  lemma ReadMoveUses(sh: Shared, g: nat, pc: ReadPc, gen: nat, choice: bool)
    requires !UsesConnection(ReadLoop(pc, gen))
    ensures var o := ReadMove(sh, g, pc, gen, choice).sh;
            o.done == sh.done && o.framer == sh.framer && o.registry == sh.registry
  {}

  lemma ReconnectMoveUses(sh: Shared, pc: ReconnectPc, choice: bool)
    requires !UsesConnection(Reconnect(pc)) && ReconnectMove(sh, pc, choice).Some?
    ensures var o := ReconnectMove(sh, pc, choice).value.sh;
            o.done == sh.done && o.framer == sh.framer && o.registry == sh.registry
  {}

  /** A done channel is closed at most once, by the read loop that captured it, even after c.done was replaced. */
  lemma DoneClosedOnce(s: State, i: nat, j: nat)
    requires Reachable(s) && i < |s.sh.closes| && j < |s.sh.closes| && s.sh.closes[i].gen == s.sh.closes[j].gen
    ensures i == j
    ensures var c := s.sh.closes[i]; c.gen in s.sh.captured && s.sh.captured[c.gen] == c.closer
  {
    ReachableInv(s);
    assert s.sh.closes[i] in s.sh.closes;
  }

  /** The two goroutines that hold different captures hold different generations. */
  lemma CapturesDiffer(s: State, g: nat, h: nat)
    requires Reachable(s) && g < |s.threads| && h < |s.threads| && g != h
    requires Captured(s.threads[g]) && Captured(s.threads[h])
    ensures s.threads[g].done != s.threads[h].done
  {
    ReachableInv(s);
  }

  /** While a read loop serves a connection, the registry holds entries of this connection only; it starts empty. */
  lemma ReconnectIsolation(s: State, g: nat)
    requires Reachable(s) && g < |s.threads| && s.threads[g].ReadLoop? && Owner(s.threads[g])
    ensures forall c <- s.sh.registry :: c == s.sh.framer
    ensures s.threads[g].rpc.Start? ==> s.sh.registry == []
  {
    ReachableInv(s);
    assert RegistryOfOwner(s.sh, s.threads[g]);
  }

  lemma ConnectedMeansServed(s: State)
    requires Reachable(s) && s.sh.connected
    ensures exists g :: 0 <= g < |s.threads| && Serves(s.threads[g])
  {
    ReachableInv(s);
  }

  // ----- When Close is final -----

  /** What a Close leaves that nobody has undone yet. */
  predicate Closed(s: State) {
    s.sh.cancelled && s.sh.closed && !s.sh.connected && s.sh.closeMu == None
  }

  /** A goroutine that can still bring the client back without looking at the context. */
  predicate CanRevive(sh: Shared, g: Goroutine) {
    match g
    case ReadLoop(pc, _) => pc.Alive? && sh.reconnects
    case Reconnect(pc) => !pc.Launching? && !pc.LaunchingKeepalive? && !pc.Announcing?
    case _ => false
  }

  ghost predicate Revivable(s: State) {
    exists g :: 0 <= g < |s.threads| && CanRevive(s.sh, s.threads[g])
  }

  predicate Undone(s: State) {
    s.sh.connected || !s.sh.closed
  }

  lemma MoveStaysClosed(sh: Shared, g: nat, thread: Goroutine, choice: bool)
    requires MoveOf(sh, g, thread, choice).Some?
    requires sh.cancelled && sh.closed && !sh.connected && sh.closeMu == None
    requires !CanRevive(sh, thread) && !Closing(thread)
    ensures var o := MoveOf(sh, g, thread, choice).value;
            && o.sh.cancelled && o.sh.closed && !o.sh.connected && o.sh.closeMu == None
            && o.sh.reconnects == sh.reconnects
            && !CanRevive(o.sh, o.x)
            && (o.launched != [] ==> !CanRevive(o.sh, o.launched[0]) && |o.launched| == 1)
  {}

  lemma StepStaysClosed(s: State, a: Action)
    requires Closed(s) && MutexInv(s) && !Revivable(s) && Step(s, a).Some?
    ensures var t := Step(s, a).value; Closed(t) && !Revivable(t)
  {
    var t := Step(s, a).value;
    if a.Move? {
      MoveStaysClosed(s.sh, a.g, s.threads[a.g], a.choice);
    }
    forall g | 0 <= g < |t.threads| ensures !CanRevive(t.sh, t.threads[g]) {
      if g < |s.threads| { assert !CanRevive(s.sh, s.threads[g]); }
    }
  }

  lemma {:induction false} StaysClosed(s: State, actions: seq<Action>)
    requires Closed(s) && MutexInv(s) && !Revivable(s) && Exec(s, actions).Some?
    ensures Closed(Exec(s, actions).value)
    decreases |actions|
  {
    if actions != [] {
      StepStaysClosed(s, actions[0]);
      StepKeepsMutex(s, actions[0]);
      StaysClosed(Step(s, actions[0]).value, actions[1..]);
    }
  }

  function StepsToGo(g: Goroutine): nat {
    match g
    case ReadLoop(_, _) => 8
    case Reconnect(pc) =>
      (match pc
       case Failing => 7
       case Waiting => 6
       case Replacing => 5
       case Clearing => 4
       case Dialing => 3
       case Handshaking => 2
       case _ => 1)
    case _ => 0
  }

  /** The timer fires, dialing and the handshake succeed, and the client is back. */
  lemma {:induction false} Revive(s: State, g: nat) returns (actions: seq<Action>)
    requires g < |s.threads| && CanRevive(s.sh, s.threads[g]) && s.sh.closeMu == None
    ensures Exec(s, actions).Some? && Undone(Exec(s, actions).value)
    decreases StepsToGo(s.threads[g])
  {
    var t := Step(s, Move(g, true)).value;
    var more: seq<Action>;
    if s.threads[g] == Reconnect(Marking) || s.threads[g] == Reconnect(Reopening) {
      more := [];
    } else {
      more := Revive(t, if s.threads[g].ReadLoop? then |s.threads| else g);
    }
    actions := [Move(g, true)] + more;
    assert actions[1..] == more;
  }

  /**
   A Close that is through can be undone by a later step exactly when, at that point, a read loop has
   passed its look at the context and will launch a reconnect loop, or a reconnect loop has not yet
   cleared the closed flag. The latter looks at the context while it waits, but its timer may win.
   */
  lemma CloseIsFinalIff(s: State)
    requires Reachable(s) && Closed(s)
    ensures (forall actions :: Exec(s, actions).Some? ==> !Undone(Exec(s, actions).value)) <==> !Revivable(s)
  {
    ReachableInv(s);
    if Revivable(s) {
      var g :| 0 <= g < |s.threads| && CanRevive(s.sh, s.threads[g]);
      var actions := Revive(s, g);
    } else {
      forall actions | Exec(s, actions).Some? ensures !Undone(Exec(s, actions).value) {
        StaysClosed(s, actions);
      }
    }
  }

  lemma {:induction false} ExecOneMore(s: State, actions: seq<Action>, a: Action)
    requires Exec(s, actions).Some?
    ensures Exec(s, actions + [a]) == Step(Exec(s, actions).value, a)
    decreases |actions|
  {
    if actions == [] {
      assert [a][1..] == [] && [] + [a] == [a];
    } else {
      assert (actions + [a])[0] == actions[0] && (actions + [a])[1..] == actions[1..] + [a];
      ExecOneMore(Step(s, actions[0]).value, actions[1..], a);
    }
  }

  lemma ReachableStep(s: State, a: Action) returns (t: State)
    requires Reachable(s) && Step(s, a).Some?
    ensures Reachable(t) && Step(s, a) == Some(t)
  {
    t := Step(s, a).value;
    var reconnects, keepalive, actions :| Exec(Init(reconnects, keepalive), actions) == Some(s);
    ExecOneMore(Init(reconnects, keepalive), actions, a);
    assert Exec(Init(reconnects, keepalive), actions + [a]) == Some(t);
  }

  lemma OnlyThreadMoves(s: State, choice: bool) returns (t: State)
    requires Reachable(s) && |s.threads| == 1 && MoveOf(s.sh, 0, s.threads[0], choice).Some?
    ensures var o := MoveOf(s.sh, 0, s.threads[0], choice).value;
            Reachable(t) && t == State([o.x] + o.launched, o.sh)
  {
    t := ReachableStep(s, Move(0, choice));
    var o := MoveOf(s.sh, 0, s.threads[0], choice).value;
    assert s.threads[0 := o.x] == [o.x];
  }

  lemma ConnectionBreaks() returns (s: State)
    ensures Reachable(s) && s.threads == [ReadLoop(Returning, 0), Reconnect(Waiting)]
    ensures s.sh.closeMu == None && !s.sh.closed
  {
    s := Init(true, false);
    assert Exec(s, []) == Some(s);
    s := OnlyThreadMoves(s, true);    // the read loop starts
    s := OnlyThreadMoves(s, false);   // its read fails
    s := OnlyThreadMoves(s, true);
    s := OnlyThreadMoves(s, true);    // the context is not cancelled
    s := OnlyThreadMoves(s, true);    // it launches a reconnect loop
  }

  lemma UserCloses(s: State) returns (t: State)
    requires Reachable(s) && s.sh.closeMu == None && !s.sh.closed
    ensures Reachable(t) && Closed(t) && t.threads == s.threads + [Gone]
  {
    var g := |s.threads|;
    t := ReachableStep(s, UserClose);
    assert t.threads == s.threads + [Closer(Locking)];
    t := ReachableStep(t, Move(g, true));
    assert t.threads == s.threads + [Closer(Disconnecting)];
    t := ReachableStep(t, Move(g, true));
    assert t.threads == s.threads + [Closer(Cancelling)];
    t := ReachableStep(t, Move(g, true));
    assert t.threads == s.threads + [Closer(ClosingFramer)];
    t := ReachableStep(t, Move(g, true));
  }

  /** It does happen: the connection breaks, the user closes the client, and the reconnect loop is still waiting. */
  lemma CloseCanBeUndone() returns (s: State)
    ensures Reachable(s) && Closed(s) && Revivable(s)
    ensures exists actions :: Exec(s, actions).Some? && Undone(Exec(s, actions).value)
  {
    var broken := ConnectionBreaks();
    s := UserCloses(broken);
    assert s.threads[1] == Reconnect(Waiting) && CanRevive(s.sh, s.threads[1]);
    CloseIsFinalIff(s);
  }
}
