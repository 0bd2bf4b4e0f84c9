/**
 * `BusImpl::deactivate` running against the receiver thread. The order of its
 * first two steps and the discard flag of the wake-up message are parameters,
 * to show that the protocol depends on the choices of the source. What becomes
 * of a task whose `execute` throws is up to the task library, and whether the
 * wake-up message is accepted is up to the daemon, so these are two others.
 */
module Shutdown {
  import opened Wire
  import opened Connection

  /**
   * The last two flags say that a task counts as done when an exception has
   * left its `execute`, and that the daemon can refuse the wake-up message.
   */
  datatype Protocol = Protocol(cancelFirst: bool, selfDiscard: bool, doneOnEscape: bool, wakeRefusable: bool)

  /** Cancel, then wake up, by a message that also goes to its sender. */
  function Source(done: bool, refusable: bool): Protocol {
    Protocol(true, false, done, refusable)
  }

  /** How far `deactivate` has come: one or both of cancelling and waking up, waiting, disconnecting. */
  datatype Closer = Idle | Halfway | Waiting | Disconnecting | Finished

  /** Where the receiver thread is; dead after an exception without counting as done. */
  datatype Reader = LoopHead | Receiving | Handling(message: SpreadMessage) | Stopped | Dead

  datatype State = State(
    closer: Closer,
    reader: Reader,
    cancelled: bool,
    connected: bool,
    mailbox: seq<SpreadMessage>,
    /** The wake-up message has been posted and is on its way through the daemon. */
    wakeUnderWay: bool,
    /** The daemon has refused the wake-up message, which nobody has noticed. */
    wakeRefused: bool,
    /** Messages handled after `deactivate` had cancelled the receiver. */
    handledLate: nat)

  const PRIVATE := "#private"

  function WakeMessage(): SpreadMessage {
    Regular({PRIVATE}, None)
  }

  /** An active bus whose receiver is about to check whether it has been cancelled. */
  predicate Initial(s: State) {
    && s.closer == Idle && s.reader == LoopHead && !s.cancelled && s.connected
    && s.mailbox == [] && !s.wakeUnderWay && !s.wakeRefused && s.handledLate == 0
  }

  datatype Step =
    | Close            // the next step of deactivate
    | CloseUnheard     // the same, when it wakes up and the daemon refuses the message
    | Loop             // the receiver checks for cancellation
    | Receive          // receive returns or is interrupted
    | ReceiveFails     // receive throws a communication error
    | Handle           // the message has been handled
    | HandleFails      // handling throws an exception that cancels the receiver
    | Escape           // handling throws an exception that execute does not catch
    | WakeArrives      // the wake-up message reaches the mailbox
    | Arrives(message: SpreadMessage)  // somebody else's message does

  predicate Enabled(p: Protocol, s: State, step: Step) {
    match step
    case Close => s.closer != Finished && (s.closer == Waiting ==> s.reader == Stopped)
    case CloseUnheard => p.wakeRefusable && s.closer == if p.cancelFirst then Halfway else Idle
    case Loop => s.reader == LoopHead
    case Receive => s.reader == Receiving && s.connected && s.mailbox != []
    case ReceiveFails => s.reader == Receiving && s.connected
    case Handle => s.reader.Handling?
    case HandleFails => s.reader.Handling?
    case Escape => s.reader.Handling?
    case WakeArrives => s.wakeUnderWay && s.connected
    case Arrives(m) => s.connected && Interpret(PRIVATE, m).Ok?
  }

  function Cancel(s: State): State {
    s.(cancelled := true)
  }

  /** The wake-up message goes out, and comes back unless it discards itself. */
  function Wake(p: Protocol, s: State): State {
    s.(wakeUnderWay := Reaches(WakeUp(PRIVATE).(selfDiscard := p.selfDiscard), true, {}, PRIVATE))
  }

  function Next(p: Protocol, s: State, step: Step): State
    requires Enabled(p, s, step)
  {
    match step
    case Close =>
      (match s.closer
       case Idle => (if p.cancelFirst then Cancel(s) else Wake(p, s)).(closer := Halfway)
       case Halfway => (if p.cancelFirst then Wake(p, s) else Cancel(s)).(closer := Waiting)
       case Waiting => s.(closer := Disconnecting)
       case Disconnecting => s.(closer := Finished, connected := false)
       case Finished => s)
    case CloseUnheard => s.(closer := if s.closer == Idle then Halfway else Waiting, wakeRefused := true)
    case Loop => s.(reader := if s.cancelled then Stopped else Receiving)
    case Receive =>
      s.(mailbox := s.mailbox[1..],
         reader := if Interpret(PRIVATE, s.mailbox[0]).Ok? then Handling(s.mailbox[0]) else LoopHead)
    case ReceiveFails => s.(reader := LoopHead, cancelled := true)
    case Handle => s.(reader := LoopHead, handledLate := s.handledLate + Late(s))
    case HandleFails => s.(reader := LoopHead, handledLate := s.handledLate + Late(s), cancelled := true)
    case Escape =>
      s.(reader := if p.doneOnEscape then Stopped else Dead, handledLate := s.handledLate + Late(s))
    case WakeArrives => s.(wakeUnderWay := false, mailbox := s.mailbox + [WakeMessage()])
    case Arrives(m) => s.(mailbox := s.mailbox + [m])
  }

  /** Counts a message that is handled after cancellation by `deactivate`. */
  function Late(s: State): nat {
    if s.closer != Idle && s.cancelled then 1 else 0
  }

  ghost predicate Run(p: Protocol, start: State, steps: seq<Step>, end: State)
    decreases |steps|
  {
    if steps == [] then start == end
    else Enabled(p, start, steps[0]) && Run(p, Next(p, start, steps[0]), steps[1..], end)
  }

  ghost predicate Reachable(p: Protocol, s: State) {
    exists start, steps :: Initial(start) && Run(p, start, steps, s)
  }

  /** `deactivate` waits, and neither the receiver nor the daemon can do anything about it. */
  predicate Stuck(p: Protocol, s: State) {
    && s.closer == Waiting && s.reader != Stopped
    && !Enabled(p, s, Loop) && !Enabled(p, s, Receive) && !Enabled(p, s, Handle) && !Enabled(p, s, WakeArrives)
  }

  // ---------------------------------------------------------------- the protocol of the source

  ghost predicate Inv(s: State) {
    && (s.closer != Idle ==> s.cancelled)
    && (s.closer in {Disconnecting, Finished} ==> s.reader == Stopped)
    && (s.connected <==> s.closer != Finished)
    && (s.closer == Waiting && s.reader == Receiving ==>
          s.wakeRefused || s.wakeUnderWay || WakeMessage() in s.mailbox)
    && (s.closer in {Idle, Halfway} ==> !s.wakeUnderWay && !s.wakeRefused && WakeMessage() !in s.mailbox)
    && s.handledLate <= 1
    && (s.reader.Receiving? || s.reader.Handling? ==> s.handledLate == 0)
    && (!s.cancelled ==> s.handledLate == 0)
  }

  lemma StepKeepsInv(done: bool, refusable: bool, s: State, step: Step)
    requires Inv(s) && Enabled(Source(done, refusable), s, step)
    ensures Inv(Next(Source(done, refusable), s, step))
  {
    WakeUpComesBack(PRIVATE, {});
    if step.Receive? {
      assert s.mailbox == [s.mailbox[0]] + s.mailbox[1..];
    }
  }

  lemma {:induction false} RunKeepsInv(done: bool, refusable: bool, start: State, steps: seq<Step>, end: State)
    requires Inv(start) && Run(Source(done, refusable), start, steps, end)
    ensures Inv(end)
    decreases |steps|
  {
    if steps == [] {
    } else {
      StepKeepsInv(done, refusable, start, steps[0]);
      RunKeepsInv(done, refusable, Next(Source(done, refusable), start, steps[0]), steps[1..], end);
    }
  }

  /**
   * `deactivate` waits for a receiver that is dead, or that is blocked because
   * the wake-up message was refused; only a message of somebody else or an
   * error of the connection can still free the latter.
   */
  predicate Abandoned(s: State) {
    && s.closer == Waiting && !s.wakeUnderWay
    && (s.reader == Dead || (s.reader == Receiving && s.mailbox == [] && s.wakeRefused))
  }

  /**
   * The connection is never disconnected while the receiver is inside
   * `receive`, at most one message is handled after the cancellation, and
   * `waitDone` hangs only for an abandoned receiver.
   */
  lemma Safe(done: bool, refusable: bool, s: State)
    requires Reachable(Source(done, refusable), s)
    ensures s.reader == Receiving ==> s.connected && s.closer != Disconnecting
    ensures s.handledLate <= 1
    ensures Stuck(Source(done, refusable), s) <==> Abandoned(s)
  {
    var start, steps :| Initial(start) && Run(Source(done, refusable), start, steps, s);
    RunKeepsInv(done, refusable, start, steps, s);
  }

  lemma DeadNext(p: Protocol, s: State, step: Step)
    requires Enabled(p, s, step)
    ensures Next(p, s, step).reader == Dead <==> s.reader == Dead || (step == Escape && !p.doneOnEscape)
  {
  }

  /** The receiver is dead exactly if an exception has escaped and the task does not count as done then. */
  lemma {:induction false} DeadIffEscaped(p: Protocol, start: State, steps: seq<Step>, end: State)
    requires Run(p, start, steps, end)
    ensures end.reader == Dead <==> start.reader == Dead || (Escape in steps && !p.doneOnEscape)
    decreases |steps|
  {
    if steps == [] {
    } else {
      assert steps == [steps[0]] + steps[1..];
      DeadNext(p, start, steps[0]);
      DeadIffEscaped(p, Next(p, start, steps[0]), steps[1..], end);
    }
  }

  /** How many messages a run handles, with whatever result. */
  function Handlings(steps: seq<Step>): nat {
    if steps == [] then 0
    else (if steps[0] in {Handle, HandleFails, Escape} then 1 else 0) + Handlings(steps[1..])
  }

  /** From the cancellation on, at most one more message is handled, and none if the receiver has none in hand. */
  lemma {:induction false} AtMostOneHandled(done: bool, refusable: bool, start: State, steps: seq<Step>, end: State)
    requires Run(Source(done, refusable), start, steps, end) && start.cancelled
    ensures Handlings(steps) <= if start.reader.Receiving? || start.reader.Handling? then 1 else 0
    decreases |steps|
  {
    if steps == [] {
    } else {
      var next := Next(Source(done, refusable), start, steps[0]);
      AtMostOneHandled(done, refusable, next, steps[1..], end);
    }
  }

  /** The wake-up message counts as refused exactly if the daemon has refused it. */
  lemma {:induction false} RefusedIff(p: Protocol, start: State, steps: seq<Step>, end: State)
    requires Run(p, start, steps, end)
    ensures end.wakeRefused <==> start.wakeRefused || CloseUnheard in steps
    decreases |steps|
  {
    if steps == [] {
    } else {
      assert steps == [steps[0]] + steps[1..];
      RefusedIff(p, Next(p, start, steps[0]), steps[1..], end);
    }
  }

  /** A message of somebody else frees a receiver that is blocked for want of the wake-up message. */
  lemma ForeignMessageFrees(done: bool, refusable: bool, s: State, m: SpreadMessage)
    requires Inv(s) && Abandoned(s) && s.reader == Receiving && Interpret(PRIVATE, m).Ok?
    ensures var p := Source(done, refusable);
            Enabled(p, s, Arrives(m)) && Run(p, s, [Arrives(m), Receive, Handle, Loop, Close, Close],
                                             Freed(s))
  {
    var p := Source(done, refusable);
    var s1 := Next(p, s, Arrives(m));
    var s2 := Next(p, s1, Receive);
    var s3 := Next(p, s2, Handle);
    var s4 := Next(p, s3, Loop);
    var s5 := Next(p, s4, Close);
    Prepend(p, s5, Close, [], Freed(s));
    Prepend(p, s4, Close, [Close] + [], Freed(s));
    Prepend(p, s3, Loop, [Close] + ([Close] + []), Freed(s));
    var r3 := [Loop] + ([Close] + ([Close] + []));
    Prepend(p, s2, Handle, r3, Freed(s));
    Prepend(p, s1, Receive, [Handle] + r3, Freed(s));
    Prepend(p, s, Arrives(m), [Receive] + ([Handle] + r3), Freed(s));
    assert [Arrives(m), Receive, Handle, Loop, Close, Close] == [Arrives(m)] + ([Receive] + ([Handle] + r3));
  }

  function Freed(s: State): State {
    s.(closer := Finished, connected := false, reader := Stopped, mailbox := [], handledLate := s.handledLate + 1)
  }

  function CloserRank(c: Closer): nat {
    match c
    case Idle => 4
    case Halfway => 3
    case Waiting => 2
    case Disconnecting => 1
    case Finished => 0
  }

  function ReaderRank(r: Reader): nat {
    match r
    case Receiving => 3
    case Handling(_) => 2
    case LoopHead => 1
    case Stopped => 0
    case Dead => 0
  }

  function Measure(s: State): nat {
    2 * CloserRank(s.closer) + ReaderRank(s.reader) + (if s.wakeUnderWay then 1 else 0)
  }

  /** Every step but the arrival of foreign messages brings the end nearer. */
  lemma MeasureFalls(done: bool, refusable: bool, s: State, step: Step)
    requires Inv(s) && s.closer != Idle && Enabled(Source(done, refusable), s, step)
    ensures if step.Arrives? then Measure(Next(Source(done, refusable), s, step)) == Measure(s)
            else Measure(Next(Source(done, refusable), s, step)) < Measure(s)
    ensures Next(Source(done, refusable), s, step).closer != Idle
  {
  }

  /** The steps that do not depend on messages or errors from elsewhere. */
  const OWN_STEPS: set<Step> := {Close, Loop, Receive, Handle, WakeArrives}

  function Effort(steps: seq<Step>): nat {
    if steps == [] then 0 else (if steps[0].Arrives? then 0 else 1) + Effort(steps[1..])
  }

  /**
   * Once `deactivate` has begun, only a bounded number of steps other than
   * arrivals remains. A step of one of the two threads or the arrival of the
   * wake-up message, which need nobody else, is possible as long as it has not
   * finished and does not wait for an abandoned receiver, and no longer.
   */
  lemma {:induction false} Terminates(done: bool, refusable: bool, start: State, steps: seq<Step>, end: State)
    requires Inv(start) && start.closer != Idle && Run(Source(done, refusable), start, steps, end)
    ensures Effort(steps) + Measure(end) <= Measure(start) <= 9
    ensures (exists step :: step in OWN_STEPS && Enabled(Source(done, refusable), end, step)) <==>
            end.closer != Finished && !Abandoned(end)
    decreases |steps|
  {
    if steps == [] {
      var p := Source(done, refusable);
      if end.closer != Finished && !Abandoned(end) {
        assert Enabled(p, end, Close) || Enabled(p, end, Loop) || Enabled(p, end, Receive)
            || Enabled(p, end, Handle) || Enabled(p, end, WakeArrives);
      }
    } else {
      StepKeepsInv(done, refusable, start, steps[0]);
      MeasureFalls(done, refusable, start, steps[0]);
      Terminates(done, refusable, Next(Source(done, refusable), start, steps[0]), steps[1..], end);
    }
  }

  // ---------------------------------------------------------------- why the order matters

  lemma Prepend(p: Protocol, s: State, step: Step, steps: seq<Step>, end: State)
    requires Enabled(p, s, step) && Run(p, Next(p, s, step), steps, end)
    ensures Run(p, s, [step] + steps, end)
  {
    assert ([step] + steps)[1..] == steps;
  }

  function Fresh(): State {
    State(Idle, LoopHead, false, true, [], false, false, 0)
  }

  /** The receiver is blocked with an empty mailbox while `deactivate` waits for it. */
  function Hung(refused: bool): State {
    State(Waiting, Receiving, true, true, [], false, refused, 0)
  }

  lemma {:induction false} RunOn(p: Protocol, start: State, steps: seq<Step>, s: State, step: Step)
    requires Run(p, start, steps, s) && Enabled(p, s, step)
    ensures Run(p, start, steps + [step], Next(p, s, step))
    decreases |steps|
  {
    if steps == [] {
      Prepend(p, s, step, [], Next(p, s, step));
      assert [] + [step] == [step] + [];
    } else {
      RunOn(p, Next(p, start, steps[0]), steps[1..], s, step);
      assert steps + [step] == [steps[0]] + (steps[1..] + [step]);
      Prepend(p, start, steps[0], steps[1..] + [step], Next(p, s, step));
    }
  }

  lemma ReachableNext(p: Protocol, s: State, step: Step) returns (t: State)
    requires Reachable(p, s) && Enabled(p, s, step)
    ensures t == Next(p, s, step) && Reachable(p, t)
  {
    var start, steps :| Initial(start) && Run(p, start, steps, s);
    RunOn(p, start, steps, s, step);
    t := Next(p, s, step);
  }

  lemma FreshReachable(p: Protocol)
    ensures Reachable(p, Fresh())
  {
    assert Initial(Fresh()) && Run(p, Fresh(), [], Fresh());
  }

  /** If the wake-up message discards itself, a blocked receiver is never woken. */
  lemma DiscardedWakeUpHangs(p: Protocol)
    requires p.selfDiscard
    ensures Reachable(p, Hung(false))
  {
    WakeUpComesBack(PRIVATE, {});
    FreshReachable(p);
    var s := ReachableNext(p, Fresh(), Loop);
    s := ReachableNext(p, s, Close);
    s := ReachableNext(p, s, Close);
  }

  /** If the wake-up message is sent first, the receiver may use it up and block again. */
  lemma EarlyWakeUpHangs(p: Protocol)
    requires !p.cancelFirst && !p.selfDiscard
    ensures Reachable(p, Hung(false))
  {
    WakeUpComesBack(PRIVATE, {});
    FreshReachable(p);
    var s := ReachableNext(p, Fresh(), Loop);
    s := ReachableNext(p, s, Close);
    s := ReachableNext(p, s, WakeArrives);
    s := ReachableNext(p, s, Receive);
    s := ReachableNext(p, s, Loop);
    s := ReachableNext(p, s, Close);
  }

  /** The receiver has died of an exception, and the wake-up message waits in vain. */
  function Deserted(): State {
    State(Waiting, Dead, true, true, [WakeMessage()], false, false, 0)
  }

  /** The receiver has died of an exception before anything else has happened. */
  function Escaped(): State {
    State(Idle, Dead, false, true, [], false, false, 0)
  }

  lemma EscapedReachable(p: Protocol)
    requires !p.doneOnEscape
    ensures Reachable(p, Escaped())
  {
    FreshReachable(p);
    var s := ReachableNext(p, Fresh(), Arrives(MembershipInfo));
    s := ReachableNext(p, s, Loop);
    assert s.mailbox == [MembershipInfo];
    s := ReachableNext(p, s, Receive);
    s := ReachableNext(p, s, Escape);
    assert s.mailbox == [];
  }

  /** If a task does not count as done after an exception, waiting for it hangs. */
  lemma EscapeHangs(p: Protocol)
    requires p.cancelFirst && !p.selfDiscard && !p.doneOnEscape
    ensures Reachable(p, Deserted())
  {
    WakeUpComesBack(PRIVATE, {});
    EscapedReachable(p);
    var s := ReachableNext(p, Escaped(), Close);
    s := ReachableNext(p, s, Close);
    s := ReachableNext(p, s, WakeArrives);
    assert s.mailbox == [WakeMessage()];
  }

  /** If the daemon refuses the wake-up message, a receiver that is blocked already stays so. */
  lemma RefusedWakeUpHangs(p: Protocol)
    requires p.cancelFirst && p.wakeRefusable
    ensures Reachable(p, Hung(true))
  {
    FreshReachable(p);
    var s := ReachableNext(p, Fresh(), Loop);
    s := ReachableNext(p, s, Close);
    s := ReachableNext(p, s, CloseUnheard);
  }

  /** Nobody is abandoned without an escaped exception that does not end the task, or a refusal. */
  lemma AbandonedOnlyIf(done: bool, refusable: bool, start: State, steps: seq<Step>, end: State)
    requires Initial(start) && Run(Source(done, refusable), start, steps, end) && Abandoned(end)
    ensures (Escape in steps && !done) || CloseUnheard in steps
  {
    DeadIffEscaped(Source(done, refusable), start, steps, end);
    RefusedIff(Source(done, refusable), start, steps, end);
  }

  lemma NeverAbandoned(s: State)
    requires Reachable(Source(true, false), s)
    ensures !Abandoned(s)
  {
    var p := Source(true, false);
    var start, steps :| Initial(start) && Run(p, start, steps, s);
    NotTaken(p, start, steps, s, CloseUnheard);
    if Abandoned(s) {
      AbandonedOnlyIf(true, false, start, steps, s);
    }
  }

  /** A step that is never enabled is not in a run. */
  lemma {:induction false} NotTaken(p: Protocol, start: State, steps: seq<Step>, end: State, step: Step)
    requires Run(p, start, steps, end) && forall s :: !Enabled(p, s, step)
    ensures step !in steps
    decreases |steps|
  {
    if steps == [] {
    } else {
      assert steps == [steps[0]] + steps[1..];
      NotTaken(p, Next(p, start, steps[0]), steps[1..], end, step);
    }
  }

  /**
   * Of all the protocols, the one of the source is the only one that cannot
   * hang, and only if a task counts as done after an exception and the daemon
   * does not refuse the wake-up message.
   */
  lemma NeverHangsIff(p: Protocol)
    ensures p == Source(true, false) <==> forall s | Reachable(p, s) :: !Stuck(p, s)
  {
    if p == Source(true, false) {
      forall s | Reachable(p, s) ensures !Stuck(p, s) {
        Safe(true, false, s);
        NeverAbandoned(s);
      }
    } else if p.selfDiscard {
      DiscardedWakeUpHangs(p);
      assert Stuck(p, Hung(false));
    } else if !p.cancelFirst {
      EarlyWakeUpHangs(p);
      assert Stuck(p, Hung(false));
    } else if !p.doneOnEscape {
      EscapeHangs(p);
      assert Stuck(p, Deserted());
    } else {
      RefusedWakeUpHangs(p);
      assert Stuck(p, Hung(true));
    }
  }
}
