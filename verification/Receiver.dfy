/** The receiving thread's step: take a message, reassemble, dispatch. */
module Receiver {
  import opened Wire
  import opened Connection
  import opened Membership
  import opened Bus
  import Channel
  import RoundTrip
  import Shutdown
  import R = Reassembly
  import Pools = AssemblyPools

  /** How the outcome of joining shows to the receiver task. */
  function Deserialized(o: R.Outcome): Result<Option<Received>> {
    match o
    case Pending => Ok(None)
    case Delivered(n) => Ok(Some(FromRecord(n)))
    case Duplicate => Err(ProtocolError)
    case Malformed => Err(InvalidArgument)
  }

  /** `handleMessage` on values: other messages are ignored, garbage is an error. */
  function Handled(m: SpreadMessage, pool: R.Pool, now: int): (R.Pool, Result<Option<Received>>) {
    match m
    case MembershipInfo => (pool, Ok(None))
    case Regular(_, None) => (pool, Err(CommError))
    case Regular(_, Some(f)) =>
      var (q, o) := R.Receive(pool, f, now);
      (q, Deserialized(o))
  }

  /** What one round of the receiver leaves behind; `escaped` is an exception it does not catch. */
  datatype Round = Round(pool: R.Pool, delivered: multiset<(Registration, Event)>,
                         errors: multiset<(Registration, Error)>, cancelled: bool, escaped: Option<Error>)

  function Dispatched(sinks: set<Registration>, n: Received): multiset<(Registration, Event)> {
    DispatchTo(sinks, n.scope, Observe(n))
  }

  /** What follows from the result of `handleMessage` or the exception of the connection. */
  function Concluded(before: Round, pool: R.Pool, r: Result<Option<Received>>,
                     sinks: set<Registration>, protocolIsComm: bool): Round
  {
    match r
    case Ok(None) => before.(pool := pool)
    case Ok(Some(n)) => before.(pool := pool, delivered := before.delivered + Dispatched(sinks, n))
    case Err(e) =>
      if e == CommError || (e == ProtocolError && protocolIsComm)
      then before.(pool := pool, errors := before.errors + ReportTo(sinks, e), cancelled := true)
      else if e == Interrupted then before.(pool := pool)
      else before.(pool := pool, escaped := Some(e))
  }

  /** A round in which `received` has been returned or thrown by the connection. */
  function RoundOf(received: Result<SpreadMessage>, before: Round, sinks: set<Registration>,
                   now: int, protocolIsComm: bool): Round
  {
    var (q, r) := if received.Ok? then Handled(received.value, before.pool, now)
                  else (before.pool, Err(received.error));
    Concluded(before, q, r, sinks, protocolIsComm)
  }

  // ---------------------------------------------------------------- rounds without a fragment

  /**
   * The wake-up message, whatever it carries, ends a round quietly, and so
   * does a membership message: neither changes anything.
   */
  lemma QuietRounds(privateGroup: string, body: Option<Fragment>, before: Round, sinks: set<Registration>,
                    now: int, protocolIsComm: bool)
    ensures RoundOf(Interpret(privateGroup, Regular({privateGroup}, body)), before, sinks, now, protocolIsComm)
         == before
    ensures RoundOf(Interpret(privateGroup, MembershipInfo), before, sinks, now, protocolIsComm) == before
  {
  }

  /** The sinks have been told once each of a communication error, and the receiver is cancelled. */
  ghost predicate Aborted(before: Round, after: Round, sinks: set<Registration>) {
    && after.cancelled
    && (forall r, x :: after.errors[(r, x)] == before.errors[(r, x)] + if r in sinks && x == CommError then 1 else 0)
    && after.pool == before.pool && after.delivered == before.delivered && after.escaped == before.escaped
  }

  /** An error of the daemon, or a message that does not parse, is told to every sink once and cancels. */
  lemma AbortedRounds(privateGroup: string, groups: set<string>, before: Round, sinks: set<Registration>,
                      now: int, protocolIsComm: bool)
    ensures Aborted(before, RoundOf(Err(CommError), before, sinks, now, protocolIsComm), sinks)
    ensures var received := Interpret(privateGroup, Regular(groups, None));
            groups != {privateGroup} ==>
              Aborted(before, RoundOf(received, before, sinks, now, protocolIsComm), sinks)
  {
    var after := RoundOf(Err(CommError), before, sinks, now, protocolIsComm);
    assert after.errors == before.errors + ReportTo(sinks, CommError);
    ReportedOnceIff(before.errors, after.errors, sinks, CommError);
  }

  /** What a round without a fragment leaves behind, by what the connection has returned or thrown. */
  lemma RoundCases(received: Result<SpreadMessage>, before: Round, after: Round, sinks: set<Registration>,
                   now: int, protocolIsComm: bool)
    requires after == RoundOf(received, before, sinks, now, protocolIsComm)
    ensures received == Err(IllegalState) ==> after == before.(escaped := Some(IllegalState))
    ensures received == Err(Interrupted) || received == Ok(MembershipInfo) ==> after == before
    ensures received == Err(CommError) || (received.Ok? && received.value.Regular? && received.value.body == None) ==>
              Aborted(before, after, sinks)
  {
    if received == Err(CommError) || (received.Ok? && received.value.Regular? && received.value.body == None) {
      assert after.errors == before.errors + ReportTo(sinks, CommError);
      ReportedOnceIff(before.errors, after.errors, sinks, CommError);
    }
  }

  /** How a round for a message ends, as a step of the shutdown protocol. */
  function EndOf(after: Round): Shutdown.Step {
    if after.escaped.Some? then Shutdown.Escape else if after.cancelled then Shutdown.HandleFails else Shutdown.Handle
  }

  /** A round never takes a cancellation back, and an exception that escapes does not cancel. */
  lemma CancellationStays(received: Result<SpreadMessage>, before: Round, sinks: set<Registration>,
                          now: int, protocolIsComm: bool)
    requires before.escaped == None
    ensures var after := RoundOf(received, before, sinks, now, protocolIsComm);
            && (before.cancelled ==> after.cancelled)
            && (after.escaped.Some? ==> after.cancelled == before.cancelled)
  {
  }

  /** An error of the daemon is a failing receive of the shutdown protocol: both cancel and go on to the loop. */
  lemma ErrorIsReceiveFails(p: Shutdown.Protocol, s: Shutdown.State, before: Round, sinks: set<Registration>,
                            now: int, protocolIsComm: bool)
    requires s.reader == Shutdown.Receiving && s.connected && before.escaped == None
    ensures var after := RoundOf(Err(CommError), before, sinks, now, protocolIsComm);
            var t := Shutdown.Next(p, s, Shutdown.ReceiveFails);
            t.reader == Shutdown.LoopHead && t.cancelled && after.cancelled && after.escaped == None
  {
  }

  /** The wake-up message is taken by a receive of the shutdown protocol that cancels nothing. */
  lemma WakeUpIsReceive(p: Shutdown.Protocol, s: Shutdown.State, before: Round, sinks: set<Registration>,
                        now: int, protocolIsComm: bool)
    requires s.reader == Shutdown.Receiving && s.connected && s.mailbox != []
    requires s.mailbox[0] == Shutdown.WakeMessage()
    ensures RoundOf(Interpret(Shutdown.PRIVATE, s.mailbox[0]), before, sinks, now, protocolIsComm) == before
    ensures Shutdown.Next(p, s, Shutdown.Receive) == s.(mailbox := s.mailbox[1..], reader := Shutdown.LoopHead)
  {
  }

  /**
   * Handling any other message ends, in the shutdown protocol, with the step
   * for its result: normally, with a cancellation, or with an exception that
   * leaves the task. Cancellation is the same in both.
   */
  lemma RoundIsShutdownStep(p: Shutdown.Protocol, s: Shutdown.State, m: SpreadMessage, before: Round,
                            sinks: set<Registration>, now: int, protocolIsComm: bool)
    requires s.reader == Shutdown.Handling(m) && before.escaped == None && (before.cancelled <==> s.cancelled)
    ensures var after := RoundOf(Ok(m), before, sinks, now, protocolIsComm);
            && Shutdown.Enabled(p, s, EndOf(after))
            && var t := Shutdown.Next(p, s, EndOf(after));
               && (t.cancelled <==> after.cancelled)
               && (t.reader == Shutdown.LoopHead <==> after.escaped == None)
  {
    CancellationStays(Ok(m), before, sinks, now, protocolIsComm);
  }

  // ---------------------------------------------------------------- rounds with a fragment

  /** Handling a fragment from the network is a delivery step of the channel. */
  lemma HandledIsDelivery(s: Channel.State, groups: set<string>, f: Fragment, now: int, i: int)
    requires Channel.Inv(s) && f in s.net && 0 <= i < |s.sent| && IsPieceOf(f, s.sent[i])
    ensures var t := Channel.Next(s, Channel.Deliver(f, now)); var w := Whole(s.sent[i].event);
            var (q, r) := Handled(Regular(groups, Some(f)), s.pool, now);
            && q == t.pool
            && (if t.out == s.out then r == Ok(None) || r == Err(ProtocolError)
                else t.out == s.out + [w] && r == Ok(Some(FromRecord(w))))
  {
    RoundTrip.ReceiveOutcome(s, f, now, i);
  }

  /**
   * A round with a fragment under way at the head of the mailbox does what the delivery step does, and
   * hands the sinks the event that the step lets out, if any. If the fragment
   * is held in the pool already, the round ends the receiver: it reports the
   * error to the sinks and cancels, or the exception escapes.
   */
  lemma RoundIsDelivery(s: Channel.State, privateGroup: string, groups: set<string>, f: Fragment, before: Round,
                        sinks: set<Registration>, now: int, protocolIsComm: bool, i: int)
    requires Channel.Inv(s) && f in s.net && before.pool == s.pool && groups != {privateGroup}
    requires 0 <= i < |s.sent| && IsPieceOf(f, s.sent[i])
    ensures var t := Channel.Next(s, Channel.Deliver(f, now)); var e := s.sent[i].event;
            var calls := if t.out == s.out then multiset{} else DispatchTo(sinks, e.header.scope, e);
            RoundOf(Interpret(privateGroup, Regular(groups, Some(f))), before, sinks, now, protocolIsComm) ==
            if !(f.count > 1 && R.Held(s.pool, f))
            then before.(pool := t.pool, delivered := before.delivered + calls)
            else if protocolIsComm
            then before.(errors := before.errors + ReportTo(sinks, ProtocolError), cancelled := true)
            else before.(escaped := Some(ProtocolError))
  {
    HandledIsDelivery(s, groups, f, now, i);
    RejectedIffHeld(s, f, now, i);
    var w := FromRecord(Whole(s.sent[i].event));
    assert Observe(w) == s.sent[i].event && w.scope == s.sent[i].event.header.scope;
  }

  /** Exactly the fragments that are held in the pool already are rejected. */
  lemma RejectedIffHeld(s: Channel.State, f: Fragment, now: int, i: int)
    requires Channel.Inv(s) && f in s.net && 0 <= i < |s.sent| && IsPieceOf(f, s.sent[i])
    ensures R.Receive(s.pool, f, now).1 == R.Duplicate <==> f.count > 1 && R.Held(s.pool, f)
    ensures Channel.Next(s, Channel.Deliver(f, now)).rejected
         == if f.count > 1 && R.Held(s.pool, f) then s.rejected + multiset{f} else s.rejected
  {
    Channel.NeverMalformed(s, f);
    RoundTrip.ReceiveOutcome(s, f, now, i);
    if R.Receive(s.pool, f, now).1 == R.Duplicate {
      Channel.RejectedIsHeld(s, f, now);
    }
  }

  /** The receiver has neither been cancelled nor left by an exception. */
  predicate Alive(r: Round) {
    !r.cancelled && r.escaped.None?
  }

  /** The receiver goes on after a round exactly if the delivery step rejects nothing. */
  lemma GoesOnIff(s: Channel.State, privateGroup: string, groups: set<string>, f: Fragment, before: Round,
                  sinks: set<Registration>, now: int, protocolIsComm: bool)
    requires Channel.Inv(s) && f in s.net && before.pool == s.pool && Alive(before) && groups != {privateGroup}
    ensures var t := Channel.Next(s, Channel.Deliver(f, now));
            var received := Interpret(privateGroup, Regular(groups, Some(f)));
            Alive(RoundOf(received, before, sinks, now, protocolIsComm)) <==> t.rejected == s.rejected
  {
    Channel.AccountedIsSent(s, f);
    var i :| 0 <= i < |s.sent| && IsPieceOf(f, s.sent[i]);
    RoundIsDelivery(s, privateGroup, groups, f, before, sinks, now, protocolIsComm, i);
    RejectedIffHeld(s, f, now, i);
    assert (s.rejected + multiset{f})[f] == s.rejected[f] + 1;
  }

  /** Nothing is rejected in a run without copies, so lossless runs are runs of a receiver that goes on. */
  lemma LosslessGoesOn(steps: seq<Channel.Step>)
    requires Channel.Allowed(steps) && Channel.After(steps).copied == multiset{}
    ensures Channel.After(steps).rejected == multiset{}
    ensures forall f | f in Channel.After(steps).net :: !R.Held(Channel.After(steps).pool, f)
  {
    var s := Channel.After(steps);
    Channel.RunKeepsInv(steps);
    forall f ensures s.rejected[f] == 0 && (f in s.net ==> !R.Held(s.pool, f)) {
      assert Channel.Balanced(s, f);
    }
  }

  class DeserializingHandler {
    const assemblyPool: Pools.AssemblyPool

    constructor ()
      ensures assemblyPool.Valid() && fresh(assemblyPool.repr) && assemblyPool.State() == map[]
      ensures assemblyPool.pruningAgeS == 20 && assemblyPool.pruningIntervalMs == 4000
    {
      assemblyPool := new Pools.AssemblyPool(20, 4000);
    }

    /** The slot of a fragment that goes to the pool has to exist, which the source does not check. */
    ghost predicate Acceptable(m: SpreadMessage)
      requires assemblyPool.Valid()
      reads assemblyPool, assemblyPool.repr
    {
      m.Regular? && m.body.Some? && m.body.value.count > 1 ==> R.Fits(assemblyPool.State(), m.body.value)
    }

    method HandleMessage(m: SpreadMessage, now: int) returns (r: Result<Option<Received>>)
      requires assemblyPool.Valid() && Acceptable(m)
      modifies assemblyPool.repr
      ensures assemblyPool.Valid() && fresh(assemblyPool.repr - old(assemblyPool.repr))
      ensures (assemblyPool.State(), r) == Handled(m, old(assemblyPool.State()), now)
    {
      if !m.Regular? {
        return Ok(None);
      }
      if m.body.None? {
        return Err(CommError);
      }
      var fragment := new Pools.FragmentedNotification(m.body.value);
      var joined := MaybeJoinFragments(fragment, now);
      if joined.Err? {
        return Err(joined.error);
      }
      if joined.value.None? {
        return Ok(None);
      }
      return Ok(Some(FromRecord(joined.value.value)));
    }

    /** Single-part notifications do not go through the pool. */
    method MaybeJoinFragments(fragment: Pools.FragmentedNotification, now: int)
      returns (r: Result<Option<Notification>>)
      requires assemblyPool.Valid() && fragment !in assemblyPool.repr
      requires fragment.count > 1 ==> R.Fits(assemblyPool.State(), fragment.Value())
      modifies assemblyPool.repr, fragment
      ensures assemblyPool.Valid() && fresh(assemblyPool.repr - old(assemblyPool.repr) - {fragment})
      ensures var (pool, o) := R.Receive(old(assemblyPool.State()), old(fragment.Value()), now);
              assemblyPool.State() == pool && r == Pools.AsResult(o)
    {
      if fragment.count > 1 {
        r := assemblyPool.Add(fragment, now);
      } else {
        r := Ok(Some(fragment.notification));
      }
    }
  }

  class ReceiverTask {
    const connection: SpreadConnection
    const bus: BusImpl
    const messageHandler: DeserializingHandler
    /** Whether protocol exceptions belong to the class that `execute` catches. */
    const protocolIsComm: bool
    var cancelled: bool

    constructor (bus: BusImpl, protocolIsComm: bool)
      ensures connection == bus.connection && this.bus == bus && this.protocolIsComm == protocolIsComm
      ensures !cancelled && fresh(messageHandler) && messageHandler.assemblyPool.Valid()
      ensures fresh(messageHandler.assemblyPool.repr) && messageHandler.assemblyPool.State() == map[]
      ensures messageHandler.assemblyPool.pruningAgeS == 20
      ensures messageHandler.assemblyPool.pruningIntervalMs == 4000
    {
      this.connection, this.bus, this.protocolIsComm := bus.connection, bus, protocolIsComm;
      messageHandler := new DeserializingHandler();
      cancelled := false;
    }

    ghost predicate Valid()
      reads messageHandler.assemblyPool, messageHandler.assemblyPool.repr
    {
      && messageHandler.assemblyPool.Valid()
      && this !in messageHandler.assemblyPool.repr
      && connection !in messageHandler.assemblyPool.repr
      && bus !in messageHandler.assemblyPool.repr
    }

    /** The part of the state that a round can change, before its exception is known. */
    ghost function State(): Round
      requires messageHandler.assemblyPool.Valid()
      reads this, bus, messageHandler.assemblyPool, messageHandler.assemblyPool.repr
    {
      Round(messageHandler.assemblyPool.State(), bus.delivered, bus.errors, cancelled, None)
    }

    method Execute(daemonOk: bool, now: int) returns (escaped: Option<Error>)
      requires Valid() && (connection.connected && daemonOk ==> connection.mailbox != [])
      requires connection.Upcoming(daemonOk).Ok? ==>
                 messageHandler.Acceptable(connection.Upcoming(daemonOk).value)
      modifies this, connection`mailbox, bus`delivered, bus`errors, messageHandler.assemblyPool.repr
      ensures Valid()
      ensures State().(escaped := escaped)
           == RoundOf(old(connection.Upcoming(daemonOk)), old(State()), bus.sinks, now, protocolIsComm)
      ensures !connection.connected ==> State().(escaped := escaped) == old(State()).(escaped := Some(IllegalState))
      ensures connection.connected && !daemonOk ==>
                Aborted(old(State()), State().(escaped := escaped), bus.sinks)
      ensures connection.connected && daemonOk ==>
                var m := old(connection.mailbox)[0];
                && connection.mailbox == old(connection.mailbox)[1..]
                && (m.MembershipInfo? || m.groups == {connection.privateGroup} ==>
                      State().(escaped := escaped) == old(State()))
                && (m.Regular? && m.groups != {connection.privateGroup} && m.body == None ==>
                      Aborted(old(State()), State().(escaped := escaped), bus.sinks))
    {
      ghost var before := State();
      var received := connection.Receive(daemonOk);
      if received.Err? {
        escaped := Conclude(Err(received.error));
      } else {
        escaped := Process(received.value, now);
      }
      RoundCases(received, before, State().(escaped := escaped), bus.sinks, now, protocolIsComm);
    }

    method Process(m: SpreadMessage, now: int) returns (escaped: Option<Error>)
      requires Valid() && messageHandler.Acceptable(m)
      modifies this, bus`delivered, bus`errors, messageHandler.assemblyPool.repr
      ensures Valid()
      ensures State().(escaped := escaped) == RoundOf(Ok(m), old(State()), bus.sinks, now, protocolIsComm)
    {
      var r := messageHandler.HandleMessage(m, now);
      escaped := Conclude(r);
    }

    method Dispatch(n: Received)
      requires Valid()
      modifies bus`delivered
      ensures Valid() && State() == old(State()).(delivered := old(bus.delivered) + Dispatched(bus.sinks, n))
    {
      bus.HandleIncomingNotification(n);
      CalledOnceIff(old(bus.delivered), bus.delivered, bus.sinks, n.scope, Observe(n));
    }

    method Report(e: Error)
      requires Valid()
      modifies bus`errors
      ensures Valid() && State() == old(State()).(errors := old(bus.errors) + ReportTo(bus.sinks, e))
    {
      bus.HandleError(e);
      ReportedOnceIff(old(bus.errors), bus.errors, bus.sinks, e);
    }

    /** The rest of the try block, and the two catch clauses. */
    method Conclude(r: Result<Option<Received>>) returns (escaped: Option<Error>)
      requires Valid()
      modifies this, bus`delivered, bus`errors
      ensures Valid()
      ensures State().(escaped := escaped)
           == Concluded(old(State()), old(messageHandler.assemblyPool.State()), r, bus.sinks, protocolIsComm)
    {
      escaped := None;
      if r.Ok? {
        if r.value.Some? {
          Dispatch(r.value.value);
        }
      } else if r.error == CommError || (r.error == ProtocolError && protocolIsComm) {
        Report(r.error);
        cancelled := true;
      } else if r.error != Interrupted {
        escaped := Some(r.error);
      }
    }
  }
}
