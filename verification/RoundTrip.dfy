/** What the conservation law of `Channel` means for the events of a run. */
module RoundTrip {
  import opened Wire
  import opened Reassembly
  import opened Channel

  ghost function Deliveries(s: State, p: Packet): nat {
    multiset(s.out)[Whole(p.event)]
  }

  /** Some piece of the packet is under way, lost or pruned. */
  ghost predicate Withheld(s: State, p: Packet) {
    exists j: nat :: j < |p.parts| && s.net[Piece(p, j)] + s.lost[Piece(p, j)] + s.pruned[Piece(p, j)] > 0
  }

  ghost predicate NeverCopied(s: State, p: Packet) {
    forall j: nat | j < |p.parts| :: s.copied[Piece(p, j)] == 0
  }

  /** Under any loss, reordering, duplication and pruning, only sent events come out. */
  lemma NoCorruption(steps: seq<Step>, n: Notification)
    requires Allowed(steps) && n in After(steps).out
    ensures exists i :: 0 <= i < |After(steps).sent| && n == Whole(After(steps).sent[i].event)
  {
    RunKeepsInv(steps);
  }

  /** Every copy of a fragment is in exactly one place or has met exactly one fate. */
  lemma Conservation(steps: seq<Step>, f: Fragment)
    requires Allowed(steps)
    ensures var s := After(steps);
            (if FromSent(s.sent, f) then 1 else 0) + s.copied[f]
            == s.net[f] + s.lost[f] + s.rejected[f] + s.consumed[f] + s.pruned[f]
               + (if Held(s.pool, f) then 1 else 0)
  {
    RunKeepsInv(steps);
    assert Balanced(After(steps), f);
  }

  /** A second delivery needs a duplicate of every single fragment of the event. */
  lemma DeliveryBound(s: State, i: int, j: nat)
    requires Inv(s) && 0 <= i < |s.sent| && j < |s.sent[i].parts|
    ensures Deliveries(s, s.sent[i]) <= 1 + s.copied[Piece(s.sent[i], j)]
  {
    var f := Piece(s.sent[i], j);
    assert ConsumedWhole(s, s.sent[i]);
    assert Balanced(s, f);
  }

  /** Some piece of a packet is missing in the pool, or its assembly would have been completed. */
  lemma NotAllHeld(s: State, p: Packet) returns (j: nat)
    requires Inv(s) && |p.parts| >= 1
    ensures j < |p.parts| && !Held(s.pool, Piece(p, j))
  {
    var k := Key(p.event.id);
    j := 0;
    if Held(s.pool, Piece(p, 0)) {
      assert Sound(k, s.pool[k]);
      ValuesBound(s.pool[k].slots);
      j :| j < |s.pool[k].slots| && s.pool[k].slots[j].None?;
      assert s.pool[k].slots[0].value.count == |p.parts|;
    }
  }

  /**
   * An event of which no fragment was duplicated has been delivered exactly
   * once if nothing of it is withheld, and not at all otherwise, whatever
   * happens to other events.
   */
  lemma FateDecides(s: State, i: int)
    requires Inv(s) && 0 <= i < |s.sent| && NeverCopied(s, s.sent[i])
    ensures Deliveries(s, s.sent[i]) == if Withheld(s, s.sent[i]) then 0 else 1
  {
    var p := s.sent[i];
    assert ConsumedWhole(s, p);
    forall j: nat | j < |p.parts|
      ensures s.net[Piece(p, j)] + s.lost[Piece(p, j)] + s.pruned[Piece(p, j)] + Deliveries(s, p)
              + (if Held(s.pool, Piece(p, j)) then 1 else 0) == 1
    {
      var f := Piece(p, j);
      assert IsPieceOf(f, s.sent[i]);
      assert FromSent(s.sent, f);
      assert Balanced(s, f);
      assert s.rejected[f] <= s.copied[f];
    }
    assert s.net[Piece(p, 0)] + Deliveries(s, p) <= 1;
    var j := NotAllHeld(s, p);
    assert s.net[Piece(p, j)] + s.lost[Piece(p, j)] + s.pruned[Piece(p, j)] + Deliveries(s, p) == 1;
  }

  /** Losing a fragment that was never copied takes it out of the network for good, and its event with it. */
  lemma LossIsFinal(s: State, f: Fragment, i: int)
    requires Inv(s) && f in s.net && 0 <= i < |s.sent| && IsPieceOf(f, s.sent[i]) && NeverCopied(s, s.sent[i])
    ensures var t := Next(s, Lose(f)); f !in t.net && t.lost[f] == 1 && Deliveries(t, s.sent[i]) == 0
  {
    var t := Next(s, Lose(f));
    assert Balanced(s, f);
    LoseKeeps(s, f);
    assert f == Piece(s.sent[i], f.part);
    assert t.lost[Piece(t.sent[i], f.part)] > 0;
    FateDecides(t, i);
  }

  // ---------------------------------------------------------------- lossless runs

  predicate Benign(step: Step) {
    step.Send? || step.Deliver?
  }

  predicate Lossless(steps: seq<Step>) {
    forall i | 0 <= i < |steps| :: Benign(steps[i])
  }

  lemma BenignStep(s: State, step: Step)
    requires Possible(s, step) && Benign(step) && s.copied == s.lost == s.pruned == multiset{}
    ensures var t := Next(s, step); t.copied == t.lost == t.pruned == multiset{}
  {
  }

  lemma {:induction false} LosslessHistories(steps: seq<Step>)
    requires Feasible(steps) && Lossless(steps)
    ensures var s := After(steps); s.copied == s.lost == s.pruned == multiset{}
  {
    if steps == [] {
    } else {
      var n := |steps| - 1;
      LosslessHistories(steps[..n]);
      assert Benign(steps[n]);
      BenignStep(After(steps[..n]), steps[n]);
    }
  }

  ghost predicate UnderWay(s: State, p: Packet) {
    exists j: nat :: j < |p.parts| && Piece(p, j) in s.net
  }

  /** At every moment of a lossless run an event is out exactly when all of it has arrived. */
  lemma ExactlyOnce(steps: seq<Step>, i: int)
    requires Allowed(steps) && Lossless(steps) && 0 <= i < |After(steps).sent|
    ensures var s := After(steps); Deliveries(s, s.sent[i]) == if UnderWay(s, s.sent[i]) then 0 else 1
  {
    var s := After(steps);
    RunKeepsInv(steps);
    LosslessHistories(steps);
    FateDecides(s, i);
  }

  /** What the receiver can do with a sent fragment. */
  lemma ReceiveOutcome(s: State, f: Fragment, now: int, i: int)
    requires Inv(s) && f in s.net && 0 <= i < |s.sent| && IsPieceOf(f, s.sent[i])
    ensures Receive(s.pool, f, now).1 in {Pending, Duplicate, Delivered(Whole(s.sent[i].event))}
  {
    NeverMalformed(s, f);
    if Receive(s.pool, f, now).1.Delivered? {
      DeliveryTakesPieces(s, f, now, i, f);
    }
  }

  /** A delivery step delivers the event of the fragment or nothing. */
  lemma DeliversItsEvent(s: State, f: Fragment, now: int, i: int)
    requires Inv(s) && f in s.net && 0 <= i < |s.sent| && IsPieceOf(f, s.sent[i])
    ensures var t := Next(s, Deliver(f, now));
            && t.sent == s.sent
            && t.out == (if Receive(s.pool, f, now).1.Delivered? then s.out + [Whole(s.sent[i].event)] else s.out)
  {
    ReceiveOutcome(s, f, now, i);
  }

  /** The step that delivers an event is the arrival of its last fragment. */
  lemma LastFragmentDelivers(steps: seq<Step>, f: Fragment, now: int, i: int)
    requires Allowed(steps) && Lossless(steps) && Enabled(After(steps), Deliver(f, now))
    requires 0 <= i < |After(steps).sent| && IsPieceOf(f, After(steps).sent[i])
    ensures var s := After(steps); var t := Next(s, Deliver(f, now));
            t.out == if UnderWay(t, s.sent[i]) then s.out else s.out + [Whole(s.sent[i].event)]
  {
    var s := After(steps);
    OneMore(steps, Deliver(f, now));
    RunKeepsInv(steps);
    DeliversItsEvent(s, f, now, i);
    ExactlyOnce(steps, i);
    ExactlyOnce(steps + [Deliver(f, now)], i);
    assert f == Piece(s.sent[i], f.part);
  }

  lemma WholesCount(sent: seq<Packet>, n: Notification)
    requires Distinct(sent)
    ensures multiset(Wholes(sent))[n] == if Genuine(sent, n) then 1 else 0
  {
    var w := Wholes(sent);
    forall i, j | 0 <= i < j < |w| ensures w[i] != w[j] {
      assert Key(sent[i].event.id) != Key(sent[j].event.id);
    }
    DistinctCount(w, n);
    if Genuine(sent, n) {
      var i :| 0 <= i < |sent| && n == Whole(sent[i].event);
      assert w[i] == n;
    }
  }

  lemma AllDelivered(steps: seq<Step>, n: Notification)
    requires Allowed(steps) && Lossless(steps) && After(steps).net == multiset{}
    ensures multiset(After(steps).out)[n] == multiset(Wholes(After(steps).sent))[n]
  {
    var s := After(steps);
    RunKeepsInv(steps);
    WholesCount(s.sent, n);
    if Genuine(s.sent, n) {
      var i :| 0 <= i < |s.sent| && n == Whole(s.sent[i].event);
      ExactlyOnce(steps, i);
    } else {
      assert n !in s.out;
    }
  }

  /**
   * Round trip: once everything has arrived, whatever the interleaving was,
   * each sent event has been delivered exactly once, unaltered, and the pool
   * is empty.
   */
  lemma RoundTripComplete(steps: seq<Step>)
    requires Allowed(steps) && Lossless(steps) && After(steps).net == multiset{}
    ensures multiset(After(steps).out) == multiset(Wholes(After(steps).sent))
    ensures After(steps).pool == map[]
  {
    forall n ensures multiset(After(steps).out)[n] == multiset(Wholes(After(steps).sent))[n] {
      AllDelivered(steps, n);
    }
    if k :| k in After(steps).pool {
      PooledIsUnderWay(steps, k);
    }
  }

  /** A pooled assembly waits for a fragment that is still under way. */
  lemma PooledIsUnderWay(steps: seq<Step>, k: string)
    requires Allowed(steps) && Lossless(steps) && k in After(steps).pool
    ensures exists f :: f in After(steps).net && KeyOf(f) == k
  {
    var s := After(steps);
    RunKeepsInv(steps);
    assert Sound(k, s.pool[k]);
    var j := SomeSlot(s.pool[k].slots);
    var f := s.pool[k].slots[j].value;
    assert Held(s.pool, f);
    AccountedIsSent(s, f);
    var i :| 0 <= i < |s.sent| && IsPieceOf(f, s.sent[i]);
    var p := s.sent[i];
    ExactlyOnce(steps, i);
    assert ConsumedWhole(s, p);
    LosslessHistories(steps);
    assert Balanced(s, f);
    assert f == Piece(p, f.part);
    var m: nat :| m < |p.parts| && Piece(p, m) in s.net;
    assert KeyOf(Piece(p, m)) == k;
  }

  // ---------------------------------------------------------------- permutations

  /** One more arrival, for a receiver with this pool and these deliveries so far. */
  function Fed(before: (Pool, seq<Notification>), f: Fragment): (Pool, seq<Notification>) {
    var (pool, o) := Receive(before.0, f, 0);
    (pool, if o.Delivered? then before.1 + [o.notification] else before.1)
  }

  /** What a receiver with this pool delivers for a list of arrivals. */
  function Feed(pool: Pool, arrivals: seq<Fragment>): (Pool, seq<Notification>) {
    if arrivals == [] then (pool, [])
    else Fed(Feed(pool, arrivals[..|arrivals| - 1]), arrivals[|arrivals| - 1])
  }

  function AllPieces(sent: seq<Packet>): multiset<Fragment> {
    if sent == [] then multiset{}
    else AllPieces(sent[..|sent| - 1]) + multiset(Pieces(sent[|sent| - 1]))
  }

  function SendAll(sent: seq<Packet>): seq<Step> {
    seq(|sent|, i requires 0 <= i < |sent| => Send(sent[i]))
  }

  function DeliverAll(arrivals: seq<Fragment>): seq<Step> {
    seq(|arrivals|, i requires 0 <= i < |arrivals| => Deliver(arrivals[i], 0))
  }

  ghost predicate Stands(steps: seq<Step>, sent: seq<Packet>, net: multiset<Fragment>,
                         received: (Pool, seq<Notification>))
  {
    && Feasible(steps)
    && After(steps).sent == sent
    && After(steps).net == net
    && (After(steps).pool, After(steps).out) == received
  }

  lemma SendAllGrows(init: seq<Packet>, p: Packet)
    ensures SendAll(init + [p]) == SendAll(init) + [Send(p)]
  {
  }

  lemma DeliverAllGrows(steps: seq<Step>, init: seq<Fragment>, f: Fragment)
    ensures steps + DeliverAll(init + [f]) == steps + DeliverAll(init) + [Deliver(f, 0)]
  {
  }

  lemma SendOne(steps: seq<Step>, sent: seq<Packet>, p: Packet)
    requires Stands(steps, sent, AllPieces(sent), (map[], [])) && WellCut(p)
    ensures Stands(steps + [Send(p)], sent + [p], AllPieces(sent + [p]), (map[], []))
  {
    OneMorePossible(steps, Send(p));
    assert (sent + [p])[..|sent|] == sent;
  }

  lemma {:induction false} SendAllRuns(sent: seq<Packet>)
    requires AllWellCut(sent)
    ensures Stands(SendAll(sent), sent, AllPieces(sent), (map[], []))
  {
    if sent == [] {
    } else {
      var n := |sent| - 1;
      var init := sent[..n];
      assert sent == init + [sent[n]];
      SendAllRuns(init);
      SendOne(SendAll(init), init, sent[n]);
      SendAllGrows(init, sent[n]);
    }
  }

  lemma Available(all: multiset<Fragment>, arrivals: seq<Fragment>, f: Fragment)
    requires multiset(arrivals + [f]) <= all
    ensures multiset(arrivals) <= all && f in all - multiset(arrivals)
    ensures all - multiset(arrivals + [f]) == all - multiset(arrivals) - multiset{f}
  {
    assert multiset(arrivals + [f]) == multiset(arrivals) + multiset{f};
    assert (multiset(arrivals) + multiset{f})[f] == multiset(arrivals)[f] + 1;
  }

  lemma FeedOne(pool: Pool, arrivals: seq<Fragment>, f: Fragment)
    ensures Feed(pool, arrivals + [f]) == Fed(Feed(pool, arrivals), f)
  {
    assert (arrivals + [f])[..|arrivals|] == arrivals;
  }

  lemma DeliverOne(steps: seq<Step>, sent: seq<Packet>, net: multiset<Fragment>,
                   arrivals: seq<Fragment>, f: Fragment)
    requires Stands(steps, sent, net, Feed(map[], arrivals)) && f in net
    ensures Stands(steps + [Deliver(f, 0)], sent, net - multiset{f}, Feed(map[], arrivals + [f]))
  {
    OneMorePossible(steps, Deliver(f, 0));
    FeedOne(map[], arrivals, f);
  }

  lemma {:induction false} DeliverAllRuns(sent: seq<Packet>, arrivals: seq<Fragment>)
    requires AllWellCut(sent) && multiset(arrivals) <= AllPieces(sent)
    ensures Stands(SendAll(sent) + DeliverAll(arrivals), sent,
                   AllPieces(sent) - multiset(arrivals), Feed(map[], arrivals))
    decreases |arrivals|
  {
    if arrivals == [] {
      SendAllRuns(sent);
      assert SendAll(sent) + DeliverAll(arrivals) == SendAll(sent);
    } else {
      var n := |arrivals| - 1;
      var init, f := arrivals[..n], arrivals[n];
      assert arrivals == init + [f];
      Available(AllPieces(sent), init, f);
      DeliverAllRuns(sent, init);
      var before := SendAll(sent) + DeliverAll(init);
      DeliverOne(before, sent, AllPieces(sent) - multiset(init), init, f);
      DeliverAllGrows(SendAll(sent), init, f);
    }
  }

  /** Any permutation of all pieces of events with distinct keys delivers these events. */
  lemma AnyPermutation(sent: seq<Packet>, arrivals: seq<Fragment>)
    requires Distinct(sent) && multiset(arrivals) == AllPieces(sent)
    ensures var (pool, out) := Feed(map[], arrivals);
            pool == map[] && multiset(out) == multiset(Wholes(sent))
  {
    DeliverAllRuns(sent, arrivals);
    var steps := SendAll(sent) + DeliverAll(arrivals);
    assert Lossless(steps);
    RoundTripComplete(steps);
  }

  // ---------------------------------------------------------------- duplicates

  /** The bound on deliveries is reached: copying a single-part message delivers it again. */
  lemma DuplicateExample(e: Event)
    ensures var p := Packet(e, [e.payload]); var f := Piece(p, 0);
            var steps := [Send(p)] + [Copy(f)] + [Deliver(f, 0)] + [Deliver(f, 0)];
            && Allowed(steps)
            && Deliveries(After(steps), p) == 2 == 1 + After(steps).copied[f]
  {
    var p := Packet(e, [e.payload]);
    var f := Piece(p, 0);
    assert [e.payload][..0] == [] && Flatten([e.payload]) == Flatten([]) + e.payload;
    PiecesCount(p, f);
    assert IsPieceOf(f, p);
    OneMore([], Send(p));
    assert [] + [Send(p)] == [Send(p)];
    OneMore([Send(p)], Copy(f));
    OneMore([Send(p)] + [Copy(f)], Deliver(f, 0));
    OneMore([Send(p)] + [Copy(f)] + [Deliver(f, 0)], Deliver(f, 0));
  }
}
