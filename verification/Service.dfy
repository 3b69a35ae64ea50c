/**
 What runs of a client promise about its service: nothing is served without a dial and a handshake that succeeded,
 no connection is read by two read loops, and until the client is told to stop somebody looks after it.
 */
module Service {
  import opened Bytes
  import opened Lifecycle

  // ----- No service without a handshake -----

  /** Nobody reads a connection or is about to, and the connected flag is down. */
  ghost predicate Down(s: State) {
    !s.sh.connected && forall h :: 0 <= h < |s.threads| ==> !Serves(s.threads[h]) && s.threads[h] != Reconnect(Marking)
  }

  /** A reconnect loop gets through at this point of its code. */
  predicate Succeeds(s: State, a: Action, pc: ReconnectPc) {
    a.Move? && a.choice && a.g < |s.threads| && s.threads[a.g] == Reconnect(pc)
  }

  /** None does during the run. */
  predicate NeverSucceeds(s: State, actions: seq<Action>, pc: ReconnectPc)
    decreases |actions|
  {
    actions == [] ||
    (!Succeeds(s, actions[0], pc)
     && match Step(s, actions[0])
        case None => true
        case Some(t) => NeverSucceeds(t, actions[1..], pc))
  }

  lemma MoveStaysDown(sh: Shared, g: nat, thread: Goroutine, choice: bool)
    requires MoveOf(sh, g, thread, choice).Some? && !sh.connected
    requires !Serves(thread) && thread != Reconnect(Marking) && !(choice && thread == Reconnect(Handshaking))
    ensures StillDown(MoveOf(sh, g, thread, choice).value)
  {
    match thread
    case ReadLoop(pc, gen) => ReadMoveStaysDown(sh, g, pc, gen, choice);
    case Reconnect(pc) => ReconnectMoveStaysDown(sh, pc, choice);
    case _ =>
  }

  predicate StillDown(o: Outcome) {
    && !o.sh.connected && !Serves(o.x) && o.x != Reconnect(Marking) && |o.launched| <= 1
    && (o.launched != [] ==> !Serves(o.launched[0]) && o.launched[0] != Reconnect(Marking))
  }

  lemma ReadMoveStaysDown(sh: Shared, g: nat, pc: ReadPc, gen: nat, choice: bool)
    requires !sh.connected && !Serves(ReadLoop(pc, gen))
    ensures StillDown(ReadMove(sh, g, pc, gen, choice))
  {}

  lemma ReconnectMoveStaysDown(sh: Shared, pc: ReconnectPc, choice: bool)
    requires ReconnectMove(sh, pc, choice).Some? && !sh.connected
    requires !Serves(Reconnect(pc)) && !pc.Marking? && !(choice && pc.Handshaking?)
    ensures StillDown(ReconnectMove(sh, pc, choice).value)
  {}

  lemma StepStaysDown(s: State, a: Action)
    requires Down(s) && Step(s, a).Some? && !Succeeds(s, a, Handshaking)
    ensures Down(Step(s, a).value)
  {
    if a.Move? {
      MoveStaysDown(s.sh, a.g, s.threads[a.g], a.choice);
    }
  }

  lemma {:induction false} StaysDown(s: State, actions: seq<Action>)
    requires Down(s) && Exec(s, actions).Some? && NeverSucceeds(s, actions, Handshaking)
    ensures Down(Exec(s, actions).value)
    decreases |actions|
  {
    if actions != [] {
      StepStaysDown(s, actions[0]);
      StaysDown(Step(s, actions[0]).value, actions[1..]);
    }
  }

  /** A reconnect loop before the success of its handshake. */
  predicate Trying(g: Goroutine) {
    g.Reconnect? && (g.cpc.Waiting? || g.cpc.Replacing? || g.cpc.Clearing? || g.cpc.Dialing? ||
                     g.cpc.Handshaking? || g.cpc.Failing?)
  }

  lemma DownWhileTrying(s: State, g: nat)
    requires Reachable(s) && g < |s.threads| && Trying(s.threads[g])
    ensures Down(s)
  {
    ReachableInv(s);
    assert Owner(s.threads[g]);
    forall h | 0 <= h < |s.threads| ensures !Serves(s.threads[h]) && s.threads[h] != Reconnect(Marking) {
      if Owner(s.threads[h]) { assert g == h; }
    }
  }

  /**
   After a handshake that failed the client stays disconnected, and no read loop is launched or reads, in every
   continuation in which no handshake succeeds.
   */
  lemma FailedHandshake(s: State, g: nat, actions: seq<Action>)
    requires Reachable(s) && g < |s.threads| && s.threads[g] == Reconnect(Handshaking)
    requires Step(s, Move(g, false)).Some?
    requires Exec(Step(s, Move(g, false)).value, actions).Some?
    requires NeverSucceeds(Step(s, Move(g, false)).value, actions, Handshaking)
    ensures Down(Exec(Step(s, Move(g, false)).value, actions).value)
  {
    DownWhileTrying(s, g);
    StepStaysDown(s, Move(g, false));
    StaysDown(Step(s, Move(g, false)).value, actions);
  }

  /** Nobody has a connection to shake hands on. */
  ghost predicate Undialed(s: State) {
    Down(s) && forall h :: 0 <= h < |s.threads| ==> s.threads[h] != Reconnect(Handshaking)
  }

  lemma MoveStaysUndialed(sh: Shared, g: nat, thread: Goroutine, choice: bool)
    requires MoveOf(sh, g, thread, choice).Some? && !sh.connected
    requires !Serves(thread) && thread != Reconnect(Marking) && thread != Reconnect(Handshaking)
    requires !(choice && thread == Reconnect(Dialing))
    ensures var o := MoveOf(sh, g, thread, choice).value;
            o.x != Reconnect(Handshaking) && (o.launched != [] ==> o.launched[0] != Reconnect(Handshaking))
  {}

  lemma {:induction false} StaysUndialed(s: State, actions: seq<Action>)
    requires Undialed(s) && Exec(s, actions).Some? && NeverSucceeds(s, actions, Dialing)
    ensures Undialed(Exec(s, actions).value)
    decreases |actions|
  {
    if actions != [] {
      var a := actions[0];
      StepStaysDown(s, a);
      if a.Move? {
        MoveStaysDown(s.sh, a.g, s.threads[a.g], a.choice);
        MoveStaysUndialed(s.sh, a.g, s.threads[a.g], a.choice);
      }
      StaysUndialed(Step(s, a).value, actions[1..]);
    }
  }

  /** After a dial that failed nobody gets as far as a handshake, in every continuation in which no dial succeeds. */
  lemma FailedDial(s: State, g: nat, actions: seq<Action>)
    requires Reachable(s) && g < |s.threads| && s.threads[g] == Reconnect(Dialing)
    requires Step(s, Move(g, false)).Some?
    requires Exec(Step(s, Move(g, false)).value, actions).Some?
    requires NeverSucceeds(Step(s, Move(g, false)).value, actions, Dialing)
    ensures Undialed(Exec(Step(s, Move(g, false)).value, actions).value)
  {
    DownWhileTrying(s, g);
    ReachableInv(s);
    assert Owner(s.threads[g]);
    StepStaysDown(s, Move(g, false));
    MoveStaysUndialed(s.sh, g, s.threads[g], false);
    StaysUndialed(Step(s, Move(g, false)).value, actions);
  }

  // ----- One read loop for each connection -----

  predicate ReaderOfOwner(sh: Shared, g: nat, thread: Goroutine) {
    match thread
    case ReadLoop(pc, _) =>
      if pc.Start? then sh.framer !in sh.readers
      else !pc.Returning? ==> sh.framer in sh.readers && sh.readers[sh.framer] == g
    case Reconnect(pc) =>
      pc.Handshaking? || pc.Marking? || pc.Reopening? || pc.Launching? ==> sh.framer !in sh.readers
    case _ => true
  }

  /** A connection belongs to the read loop that reads it, and the next one to be read has not been read. */
  ghost predicate ReaderInv(s: State) {
    && s.sh.framer < s.sh.conns
    && (forall conn <- s.sh.readers :: conn < s.sh.conns)
    && (forall g :: 0 <= g < |s.threads| && Owner(s.threads[g]) ==> ReaderOfOwner(s.sh, g, s.threads[g]))
  }

  lemma MoveKeepsReaders(sh: Shared, g: nat, thread: Goroutine, choice: bool, next: nat)
    requires MoveOf(sh, g, thread, choice).Some? && sh.framer < sh.conns && forall conn <- sh.readers :: conn < sh.conns
    requires Owner(thread) ==> ReaderOfOwner(sh, g, thread)
    ensures var o := MoveOf(sh, g, thread, choice).value;
            && o.sh.framer < o.sh.conns && (forall conn <- o.sh.readers :: conn < o.sh.conns)
            && (Owner(o.x) ==> ReaderOfOwner(o.sh, g, o.x))
            && (o.launched != [] && Owner(o.launched[0]) ==> ReaderOfOwner(o.sh, next, o.launched[0]))
  {
    match thread
    case ReadLoop(pc, gen) => ReadMoveKeepsReaders(sh, g, pc, gen, choice, next);
    case Reconnect(pc) => ReconnectMoveKeepsReaders(sh, g, pc, choice, next);
    case _ =>
  }

  lemma ReadMoveKeepsReaders(sh: Shared, g: nat, pc: ReadPc, gen: nat, choice: bool, next: nat)
    requires sh.framer < sh.conns && forall conn <- sh.readers :: conn < sh.conns
    requires !pc.Returning? ==> ReaderOfOwner(sh, g, ReadLoop(pc, gen))
    ensures var o := ReadMove(sh, g, pc, gen, choice);
            && o.sh.framer < o.sh.conns && (forall conn <- o.sh.readers :: conn < o.sh.conns)
            && (Owner(o.x) ==> ReaderOfOwner(o.sh, g, o.x))
            && (o.launched != [] && Owner(o.launched[0]) ==> ReaderOfOwner(o.sh, next, o.launched[0]))
  {}

  lemma ReconnectMoveKeepsReaders(sh: Shared, g: nat, pc: ReconnectPc, choice: bool, next: nat)
    requires ReconnectMove(sh, pc, choice).Some? && sh.framer < sh.conns && forall conn <- sh.readers :: conn < sh.conns
    requires Owner(Reconnect(pc)) ==> ReaderOfOwner(sh, g, Reconnect(pc))
    ensures var o := ReconnectMove(sh, pc, choice).value;
            && o.sh.framer < o.sh.conns && (forall conn <- o.sh.readers :: conn < o.sh.conns)
            && (Owner(o.x) ==> ReaderOfOwner(o.sh, g, o.x))
            && (o.launched != [] && Owner(o.launched[0]) ==> ReaderOfOwner(o.sh, next, o.launched[0]))
  {}

  lemma StepKeepsReaders(s: State, a: Action)
    requires OneOwner(s) && ReaderInv(s) && Step(s, a).Some?
    ensures ReaderInv(Step(s, a).value)
  {
    if a.Move? {
      MovePassesOwnership(s.sh, a.g, s.threads[a.g], a.choice);
      MoveKeepsReaders(s.sh, a.g, s.threads[a.g], a.choice, |s.threads|);
    }
  }

  // ----- Somebody looks after the client -----

  /** Nobody has told the client to stop. */
  predicate GoingOn(s: State) {
    !s.sh.cancelled && s.sh.reconnects
  }

  /** Then its connection has an owner: a read loop that reads it, or a reconnect loop that is about to replace it. */
  ghost predicate OwnedInv(s: State) {
    GoingOn(s) ==> exists g :: 0 <= g < |s.threads| && Owner(s.threads[g])
  }

  lemma MoveKeepsOwned(sh: Shared, g: nat, thread: Goroutine, choice: bool)
    requires MoveOf(sh, g, thread, choice).Some?
    ensures var o := MoveOf(sh, g, thread, choice).value;
            && (o.sh.reconnects ==> sh.reconnects) && (sh.cancelled ==> o.sh.cancelled)
            && (Owner(thread) && !sh.cancelled && sh.reconnects ==>
                  Owner(o.x) || (o.launched != [] && Owner(o.launched[0])))
  {
    match thread
    case ReadLoop(pc, gen) => ReadMoveKeepsOwned(sh, g, pc, gen, choice);
    case Reconnect(pc) => ReconnectMoveKeepsOwned(sh, pc, choice);
    case _ =>
  }

  /** The owner hands over while nobody has told the client to stop; a loop neither tells it to nor takes that back. */
  predicate HandsOver(sh: Shared, thread: Goroutine, o: Outcome) {
    && o.sh.reconnects == sh.reconnects && o.sh.cancelled == sh.cancelled
    && (Owner(thread) && !sh.cancelled && sh.reconnects ==>
          Owner(o.x) || (o.launched != [] && Owner(o.launched[0])))
  }

  lemma ReadMoveKeepsOwned(sh: Shared, g: nat, pc: ReadPc, gen: nat, choice: bool)
    ensures HandsOver(sh, ReadLoop(pc, gen), ReadMove(sh, g, pc, gen, choice))
  {}

  lemma ReconnectMoveKeepsOwned(sh: Shared, pc: ReconnectPc, choice: bool)
    requires ReconnectMove(sh, pc, choice).Some?
    ensures HandsOver(sh, Reconnect(pc), ReconnectMove(sh, pc, choice).value)
  {}

  lemma StepKeepsOwned(s: State, a: Action)
    requires OwnedInv(s) && Step(s, a).Some?
    ensures OwnedInv(Step(s, a).value)
  {
    var t := Step(s, a).value;
    if a.Move? { MoveKeepsOwned(s.sh, a.g, s.threads[a.g], a.choice); }
    if GoingOn(t) {
      var h :| 0 <= h < |s.threads| && Owner(s.threads[h]);
      if a.Move? && a.g == h {
        var o := MoveOf(s.sh, h, s.threads[h], a.choice).value;
        assert t.threads[h] == o.x && (o.launched != [] ==> t.threads[|s.threads|] == o.launched[0]);
      } else {
        assert t.threads[h] == s.threads[h];
      }
    }
  }

  lemma {:induction false} RunKeepsService(s: State, actions: seq<Action>)
    requires OneOwner(s) && ReaderInv(s) && OwnedInv(s) && Exec(s, actions).Some?
    ensures var t := Exec(s, actions).value; OneOwner(t) && ReaderInv(t) && OwnedInv(t)
    decreases |actions|
  {
    if actions != [] {
      StepKeepsOneOwner(s, actions[0]);
      StepKeepsReaders(s, actions[0]);
      StepKeepsOwned(s, actions[0]);
      RunKeepsService(Step(s, actions[0]).value, actions[1..]);
    }
  }

  lemma ReachableService(s: State)
    requires Reachable(s)
    ensures ReaderInv(s) && OwnedInv(s)
  {
    var reconnects, keepalive, actions :| Exec(Init(reconnects, keepalive), actions) == Some(s);
    var start := Init(reconnects, keepalive);
    assert Owner(start.threads[0]);
    RunKeepsService(start, actions);
  }

  /** No connection is ever read by two read loops: one that starts finds a connection that none has read. */
  lemma OneReaderPerConnection(s: State, g: nat)
    requires Reachable(s) && g < |s.threads| && s.threads[g].ReadLoop? && Owner(s.threads[g])
    ensures s.threads[g].rpc.Start? ==> s.sh.framer !in s.sh.readers
    ensures !s.threads[g].rpc.Start? ==> s.sh.framer in s.sh.readers && s.sh.readers[s.sh.framer] == g
  {
    ReachableService(s);
    assert ReaderOfOwner(s.sh, g, s.threads[g]);
  }

  /** Until the client is told to stop, its connection is read or about to be replaced, whatever fails. */
  lemma SomebodyLooksAfter(s: State)
    requires Reachable(s) && GoingOn(s)
    ensures exists g :: 0 <= g < |s.threads| && Owner(s.threads[g])
  {
    ReachableService(s);
  }

  // ----- Without reconnects -----

  ghost predicate NoReconnect(s: State) {
    !s.sh.reconnects && forall h :: 0 <= h < |s.threads| ==> !s.threads[h].Reconnect?
  }

  lemma MoveStaysUnreconnected(sh: Shared, g: nat, thread: Goroutine, choice: bool)
    requires MoveOf(sh, g, thread, choice).Some? && !sh.reconnects && !thread.Reconnect?
    ensures var o := MoveOf(sh, g, thread, choice).value;
            !o.sh.reconnects && !o.x.Reconnect? && o.launched == []
  {
    match thread
    case ReadLoop(pc, gen) =>
    case Keepalive(pc) =>
    case Closer(pc) =>
  }

  /** A client that is not to reconnect never has a reconnect loop. */
  lemma {:induction false} NeverReconnects(s: State, actions: seq<Action>)
    requires NoReconnect(s) && Exec(s, actions).Some?
    ensures NoReconnect(Exec(s, actions).value)
    decreases |actions|
  {
    if actions != [] {
      var a := actions[0];
      if a.Move? { MoveStaysUnreconnected(s.sh, a.g, s.threads[a.g], a.choice); }
      NeverReconnects(Step(s, a).value, actions[1..]);
    }
  }

  // ----- Close -----

  /** Once a reconnect has gone through, Close works again. */
  lemma CloseWorksAgain(s: State, g: nat) returns (t: State)
    requires Reachable(s) && g < |s.threads| && s.threads[g] == Reconnect(Reopening) && s.sh.closeMu == None
    ensures Step(s, Move(g, true)).Some?
    ensures var u, h := Step(s, Move(g, true)).value, |Step(s, Move(g, true)).value.threads|;
            Exec(u, [UserClose, Move(h, true), Move(h, true), Move(h, true), Move(h, true)]) == Some(t) && Closed(t)
  {
    var u := ReachableStep(s, Move(g, true));
    t := ClosesInFive(u);
  }

  /** Closing takes the lock, and ends with the context cancelled, the flag down and the client marked closed. */
  lemma ClosesInFive(s: State) returns (t: State)
    requires s.sh.closeMu == None && !s.sh.closed
    ensures var h := |s.threads|;
            Exec(s, [UserClose, Move(h, true), Move(h, true), Move(h, true), Move(h, true)]) == Some(t) && Closed(t)
  {
    var h := |s.threads|;
    var m := Move(h, true);
    var s1 := State(s.threads + [Closer(Locking)], s.sh);
    var s2 := State(s.threads + [Closer(Disconnecting)], s.sh.(closeMu := Some(h), closed := true));
    var s3 := State(s.threads + [Closer(Cancelling)], s2.sh.(connected := false));
    var s4 := State(s.threads + [Closer(ClosingFramer)], s3.sh.(cancelled := true));
    t := State(s.threads + [Gone], s4.sh.(closeMu := None));
    CloserStep(s.threads, s1.sh, Locking, Closer(Disconnecting), s2.sh);
    CloserStep(s.threads, s2.sh, Disconnecting, Closer(Cancelling), s3.sh);
    CloserStep(s.threads, s3.sh, Cancelling, Closer(ClosingFramer), s4.sh);
    CloserStep(s.threads, s4.sh, ClosingFramer, Gone, t.sh);
    ExecCons(s4, m, [], t, t);
    ExecCons(s3, m, [m], s4, t);
    ExecCons(s2, m, [m, m], s3, t);
    ExecCons(s1, m, [m, m, m], s2, t);
    ExecCons(s, UserClose, [m, m, m, m], s1, t);
  }

  lemma CloserStep(threads: seq<Goroutine>, sh: Shared, pc: ClosePc, next: Goroutine, after: Shared)
    requires CloseMove(sh, |threads|, pc) == Some(Outcome(next, [], after))
    ensures Step(State(threads + [Closer(pc)], sh), Move(|threads|, true)) == Some(State(threads + [next], after))
  {
    assert (threads + [Closer(pc)])[|threads| := next] + [] == threads + [next];
  }

  lemma ExecCons(s: State, a: Action, rest: seq<Action>, t: State, u: State)
    requires Step(s, a) == Some(t) && Exec(t, rest) == Some(u)
    ensures Exec(s, [a] + rest) == Some(u)
    ensures forall all | all == [a] + rest :: Exec(s, all) == Some(u)
  {
    assert ([a] + rest)[1..] == rest;
  }

  /** A second Close changes nothing. */
  lemma SecondClose(s: State)
    requires Closed(s)
    ensures Exec(s, [UserClose, Move(|s.threads|, true)]) == Some(State(s.threads + [Gone], s.sh))
  {
    var s1, t := State(s.threads + [Closer(Locking)], s.sh), State(s.threads + [Gone], s.sh);
    CloserStep(s.threads, s.sh, Locking, Gone, s.sh);
    ExecCons(s1, Move(|s.threads|, true), [], t, t);
    ExecCons(s, UserClose, [Move(|s.threads|, true)], s1, t);
  }

  // ----- Keepalive -----

  /** A keepalive loop changes nothing the goroutines share, and pings only a client that is connected. */
  lemma KeepaliveOnlyPings(s: State, g: nat, choice: bool)
    requires g < |s.threads| && s.threads[g].Keepalive? && Step(s, Move(g, choice)).Some?
    ensures var t := Step(s, Move(g, choice)).value;
            t.sh == s.sh && |t.threads| == |s.threads| &&
            (t.threads[g] == Keepalive(Pinging) ==> s.sh.connected)
  {}
}
