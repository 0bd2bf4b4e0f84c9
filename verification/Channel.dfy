/**
 * A receiver behind a channel that delays, reorders, duplicates and loses
 * messages, with ghost histories that say what became of every fragment.
 */
module Channel {
  import opened Wire
  import opened Reassembly

  datatype State = State(
    sent: seq<Packet>,
    net: multiset<Fragment>,
    pool: Pool,
    out: seq<Notification>,
    copied: multiset<Fragment>,
    lost: multiset<Fragment>,
    rejected: multiset<Fragment>,
    consumed: multiset<Fragment>,
    pruned: multiset<Fragment>)

  const INIT := State([], multiset{}, map[], [], multiset{}, multiset{}, multiset{}, multiset{}, multiset{})

  datatype Step =
    | Send(packet: Packet)
    | Deliver(fragment: Fragment, now: int)
    | Copy(fragment: Fragment)
    | Lose(fragment: Fragment)
    | Prune(key: string)

  predicate FreshKey(sent: seq<Packet>, p: Packet) {
    forall i | 0 <= i < |sent| :: Key(sent[i].event.id) != Key(p.event.id)
  }

  predicate Possible(s: State, step: Step) {
    match step
    case Send(p) => WellCut(p)
    case Deliver(f, _) => f in s.net
    case Copy(f) => f in s.net
    case Lose(f) => f in s.net
    case Prune(k) => k in s.pool
  }

  /** A possible step that sends no event with a key that has been used. */
  predicate Enabled(s: State, step: Step) {
    Possible(s, step) && (step.Send? ==> FreshKey(s.sent, step.packet))
  }

  /** The fragments that a delivery takes with it. */
  function Taken(pool: Pool, f: Fragment, now: int): multiset<Fragment> {
    if f.count <= 1 || !Fits(pool, f) then multiset{f}
    else multiset(Values(Grown(pool, f, now).slots))
  }

  /** All messages of a packet enter the network; it may hold any of them back. */
  function Sent(s: State, p: Packet): State {
    s.(sent := s.sent + [p], net := s.net + multiset(Pieces(p)))
  }

  function Next(s: State, step: Step): State
    requires Possible(s, step)
  {
    match step
    case Send(p) => Sent(s, p)
    case Copy(f) => s.(net := s.net + multiset{f}, copied := s.copied + multiset{f})
    case Lose(f) => s.(net := s.net - multiset{f}, lost := s.lost + multiset{f})
    case Prune(k) => s.(pool := s.pool - {k}, pruned := s.pruned + multiset(Values(s.pool[k].slots)))
    case Deliver(f, now) =>
      var t := s.(net := s.net - multiset{f}, pool := Receive(s.pool, f, now).0);
      match Receive(s.pool, f, now).1
      case Pending => t
      case Delivered(n) => t.(out := s.out + [n], consumed := s.consumed + Taken(s.pool, f, now))
      case Duplicate => t.(rejected := s.rejected + multiset{f})
      case Malformed => t.(rejected := s.rejected + multiset{f})
  }

  /** A run of possible steps, whatever the keys are. */
  predicate Feasible(steps: seq<Step>)
    decreases |steps|, 0
  {
    steps == [] ||
    (Feasible(steps[..|steps| - 1]) && Possible(After(steps[..|steps| - 1]), steps[|steps| - 1]))
  }

  /** The state after a run. */
  function After(steps: seq<Step>): State
    requires Feasible(steps)
    decreases |steps|, 1
  {
    if steps == [] then INIT else Next(After(steps[..|steps| - 1]), steps[|steps| - 1])
  }

  ghost predicate Distinct(sent: seq<Packet>) {
    && AllWellCut(sent)
    && forall i, j | 0 <= i < j < |sent| :: Key(sent[i].event.id) != Key(sent[j].event.id)
  }

  /** A run in which all events have keys of their own. */
  ghost predicate Allowed(steps: seq<Step>) {
    Feasible(steps) && Distinct(After(steps).sent)
  }

  lemma OneMorePossible(steps: seq<Step>, step: Step)
    requires Feasible(steps) && Possible(After(steps), step)
    ensures Feasible(steps + [step]) && After(steps + [step]) == Next(After(steps), step)
  {
    assert (steps + [step])[..|steps|] == steps;
  }

  lemma OneMore(steps: seq<Step>, step: Step)
    requires Allowed(steps) && Enabled(After(steps), step)
    ensures Allowed(steps + [step]) && After(steps + [step]) == Next(After(steps), step)
  {
    OneMorePossible(steps, step);
    if step.Send? {
      DistinctAfter(After(steps).sent, step.packet);
    }
  }

  lemma DistinctBefore(sent: seq<Packet>, p: Packet)
    requires Distinct(sent + [p])
    ensures Distinct(sent) && FreshKey(sent, p)
  {
    var more := sent + [p];
    assert more[|sent|] == p;
    forall i | 0 <= i < |sent| ensures WellCut(sent[i]) && Key(sent[i].event.id) != Key(p.event.id) {
      assert more[i] == sent[i];
    }
    forall i, j | 0 <= i < j < |sent| ensures Key(sent[i].event.id) != Key(sent[j].event.id) {
      assert more[i] == sent[i] && more[j] == sent[j];
    }
  }

  lemma DistinctAfter(sent: seq<Packet>, p: Packet)
    requires Distinct(sent) && WellCut(p) && FreshKey(sent, p)
    ensures Distinct(sent + [p])
  {
  }

  lemma EnabledBefore(s: State, step: Step)
    requires Possible(s, step) && Distinct(Next(s, step).sent)
    ensures Distinct(s.sent) && Enabled(s, step)
  {
    if step.Send? {
      DistinctBefore(s.sent, step.packet);
    }
  }

  /** Allowed runs are built of enabled steps. */
  lemma OneLess(steps: seq<Step>)
    requires Allowed(steps) && steps != []
    ensures var init, step := steps[..|steps| - 1], steps[|steps| - 1];
            Allowed(init) && Enabled(After(init), step) && After(steps) == Next(After(init), step)
  {
    EnabledBefore(After(steps[..|steps| - 1]), steps[|steps| - 1]);
  }

  // ---------------------------------------------------------------- the invariant

  ghost predicate FromSent(sent: seq<Packet>, f: Fragment) {
    exists i :: 0 <= i < |sent| && IsPieceOf(f, sent[i])
  }

  /** How often the fragment has been put into the network. */
  ghost function Supply(s: State, f: Fragment): nat {
    (if FromSent(s.sent, f) then 1 else 0) + s.copied[f]
  }

  /** How often the fragment is in the network or has met one of its possible fates. */
  ghost function Accounted(s: State, f: Fragment): nat {
    s.net[f] + s.lost[f] + s.rejected[f] + s.consumed[f] + s.pruned[f] + (if Held(s.pool, f) then 1 else 0)
  }

  /** Conservation of one fragment; only sent ones are copied, and only copies are rejected. */
  ghost predicate Balanced(s: State, f: Fragment) {
    && Supply(s, f) == Accounted(s, f)
    && (s.copied[f] > 0 ==> FromSent(s.sent, f))
    && s.rejected[f] <= s.copied[f]
  }

  ghost predicate Conserved(s: State) {
    forall f :: Balanced(s, f)
  }

  ghost predicate Genuine(sent: seq<Packet>, n: Notification) {
    exists i :: 0 <= i < |sent| && n == Whole(sent[i].event)
  }

  /** Deliveries of a packet consume every one of its pieces. */
  ghost predicate ConsumedWhole(s: State, p: Packet) {
    forall j: nat | j < |p.parts| :: s.consumed[Piece(p, j)] == multiset(s.out)[Whole(p.event)]
  }

  ghost predicate OutGenuine(s: State) {
    forall n | n in s.out :: Genuine(s.sent, n)
  }

  ghost predicate AllConsumedWhole(s: State) {
    forall i | 0 <= i < |s.sent| :: ConsumedWhole(s, s.sent[i])
  }

  ghost predicate Inv(s: State) {
    && Distinct(s.sent)
    && PoolInv(s.pool)
    && Counted(s.pool)
    && Conserved(s)
    && OutGenuine(s)
    && AllConsumedWhole(s)
  }

  lemma SamePacket(sent: seq<Packet>, f: Fragment, i: int, k: int)
    requires Distinct(sent) && 0 <= i < |sent| && 0 <= k < |sent|
    requires IsPieceOf(f, sent[i]) && KeyOf(f) == Key(sent[k].event.id)
    ensures i == k
  {
  }

  /** Whatever is accounted for somewhere has been sent. */
  lemma AccountedIsSent(s: State, f: Fragment)
    requires Inv(s) && Accounted(s, f) > 0
    ensures FromSent(s.sent, f)
  {
    assert Balanced(s, f);
  }

  /** A pooled assembly only holds pieces of the one packet that has its key. */
  lemma HeldPieces(s: State, k: string, i: int, j: nat)
    requires Inv(s) && k in s.pool && j < |s.pool[k].slots| && s.pool[k].slots[j].Some?
    requires 0 <= i < |s.sent| && Key(s.sent[i].event.id) == k
    ensures |s.pool[k].slots| == |s.sent[i].parts|
    ensures s.pool[k].slots[j] == Some(Piece(s.sent[i], j))
  {
    var f := s.pool[k].slots[j].value;
    assert Sound(k, s.pool[k]) && f.count == |s.pool[k].slots|;
    assert Held(s.pool, f);
    AccountedIsSent(s, f);
    var m :| 0 <= m < |s.sent| && IsPieceOf(f, s.sent[m]);
    SamePacket(s.sent, f, m, i);
  }

  lemma SomeSlot(slots: seq<Option<Fragment>>) returns (j: nat)
    requires |Values(slots)| > 0
    ensures j < |slots| && slots[j].Some?
  {
    var n := |slots| - 1;
    if slots[n].Some? {
      j := n;
    } else {
      j := SomeSlot(slots[..n]);
    }
  }

  lemma RoomIsCount(s: State, f: Fragment, i: int)
    requires Inv(s) && 0 <= i < |s.sent| && IsPieceOf(f, s.sent[i])
    ensures Room(s.pool, f) == f.count && Fits(s.pool, f)
  {
    var k := KeyOf(f);
    if k in s.pool {
      assert Sound(k, s.pool[k]);
      var j := SomeSlot(s.pool[k].slots);
      HeldPieces(s, k, i, j);
    }
  }

  /** No sent fragment ever fails what the source assumes and asserts about its input. */
  lemma NeverMalformed(s: State, f: Fragment)
    requires Inv(s) && f in s.net
    ensures Fits(s.pool, f) && Room(s.pool, f) == f.count
  {
    AccountedIsSent(s, f);
    var i :| 0 <= i < |s.sent| && IsPieceOf(f, s.sent[i]);
    RoomIsCount(s, f, i);
  }

  // ---------------------------------------------------------------- every step keeps it

  lemma SendConserves(s: State, p: Packet, f: Fragment)
    requires Inv(s) && Enabled(s, Send(p))
    ensures Balanced(Next(s, Send(p)), f)
  {
    PiecesCount(p, f);
    SentGrows(s.sent, p, f);
    assert Balanced(s, f);
  }

  lemma SendStartsEmpty(s: State, p: Packet)
    requires Inv(s) && Enabled(s, Send(p))
    ensures ConsumedWhole(s, p)
  {
    forall j: nat | j < |p.parts|
      ensures s.consumed[Piece(p, j)] == multiset(s.out)[Whole(p.event)]
    {
      var f := Piece(p, j);
      if Accounted(s, f) > 0 {
        AccountedIsSent(s, f);
      }
      assert Whole(p.event) !in s.out;
    }
  }

  lemma SendKeepsConserved(s: State, p: Packet)
    requires Inv(s) && Enabled(s, Send(p))
    ensures Conserved(Next(s, Send(p)))
  {
    forall f ensures Balanced(Next(s, Send(p)), f) {
      SendConserves(s, p, f);
    }
  }

  lemma SendKeepsOut(s: State, p: Packet)
    requires Inv(s) && Enabled(s, Send(p))
    ensures OutGenuine(Next(s, Send(p)))
  {
    var t := Next(s, Send(p));
    forall x | x in t.out ensures Genuine(t.sent, x) {
      assert Genuine(s.sent, x);
      var i :| 0 <= i < |s.sent| && x == Whole(s.sent[i].event);
      assert x == Whole(t.sent[i].event);
    }
  }

  lemma SendKeepsConsumed(s: State, p: Packet)
    requires Inv(s) && Enabled(s, Send(p))
    ensures AllConsumedWhole(Next(s, Send(p)))
  {
    var t := Next(s, Send(p));
    SendStartsEmpty(s, p);
    forall i | 0 <= i < |t.sent| ensures ConsumedWhole(t, t.sent[i]) {
      if i < |s.sent| {
        assert ConsumedWhole(s, s.sent[i]);
      }
      assert ConsumedWhole(s, t.sent[i]);
    }
  }

  lemma SendKeeps(s: State, p: Packet)
    requires Inv(s) && Enabled(s, Send(p))
    ensures Inv(Next(s, Send(p)))
  {
    SendKeepsConserved(s, p);
    SendKeepsOut(s, p);
    SendKeepsConsumed(s, p);
    assert Distinct(Next(s, Send(p)).sent);
  }

  lemma SentGrows(sent: seq<Packet>, p: Packet, f: Fragment)
    requires FreshKey(sent, p)
    ensures FromSent(sent + [p], f) <==> FromSent(sent, f) || IsPieceOf(f, p)
    ensures !(FromSent(sent, f) && IsPieceOf(f, p))
  {
    var t := sent + [p];
    if i :| 0 <= i < |sent| && IsPieceOf(f, sent[i]) {
      assert t[i] == sent[i];
    }
    if IsPieceOf(f, p) {
      assert t[|sent|] == p;
    }
  }

  /** A step that delivers nothing leaves what is said about deliveries alone. */
  lemma NothingDelivered(s: State, t: State)
    requires Inv(s) && t.sent == s.sent && t.out == s.out && t.consumed == s.consumed
    ensures OutGenuine(t) && AllConsumedWhole(t) && Distinct(t.sent)
  {
    forall i | 0 <= i < |t.sent| ensures ConsumedWhole(t, t.sent[i]) {
      assert ConsumedWhole(s, s.sent[i]);
    }
  }

  lemma CopyConserves(s: State, f: Fragment, g: Fragment)
    requires Inv(s) && Enabled(s, Copy(f))
    ensures Balanced(Next(s, Copy(f)), g)
  {
    assert Balanced(s, f) && Balanced(s, g);
  }

  lemma CopyKeeps(s: State, f: Fragment)
    requires Inv(s) && Enabled(s, Copy(f))
    ensures Inv(Next(s, Copy(f)))
  {
    var t := Next(s, Copy(f));
    forall g ensures Balanced(t, g) {
      CopyConserves(s, f, g);
    }
    NothingDelivered(s, t);
  }

  lemma LoseConserves(s: State, f: Fragment, g: Fragment)
    requires Inv(s) && Enabled(s, Lose(f))
    ensures Balanced(Next(s, Lose(f)), g)
  {
    assert Balanced(s, g);
  }

  lemma LoseKeeps(s: State, f: Fragment)
    requires Inv(s) && Enabled(s, Lose(f))
    ensures Inv(Next(s, Lose(f)))
  {
    var t := Next(s, Lose(f));
    forall g ensures Balanced(t, g) {
      LoseConserves(s, f, g);
    }
    NothingDelivered(s, t);
  }

  lemma PruneConserves(s: State, k: string, g: Fragment)
    requires Inv(s) && Enabled(s, Prune(k))
    ensures Balanced(Next(s, Prune(k)), g)
  {
    assert Balanced(s, g);
    assert Sound(k, s.pool[k]);
    ValuesCount(s.pool[k].slots, g);
    if g.part < |s.pool[k].slots| && s.pool[k].slots[g.part] == Some(g) {
      assert KeyOf(g) == k;
    }
  }

  lemma PruneKeeps(s: State, k: string)
    requires Inv(s) && Enabled(s, Prune(k))
    ensures Inv(Next(s, Prune(k)))
  {
    var t := Next(s, Prune(k));
    forall g ensures Balanced(t, g) {
      PruneConserves(s, k, g);
    }
    forall x | x in t.pool ensures Sound(x, t.pool[x]) {
      assert Sound(x, s.pool[x]);
    }
    NothingDelivered(s, t);
  }

  /** A rejected fragment is held already, so it is a copy. */
  lemma RejectedIsHeld(s: State, f: Fragment, now: int)
    requires Inv(s) && Enabled(s, Deliver(f, now)) && Receive(s.pool, f, now).1 == Duplicate
    ensures Held(s.pool, f)
  {
    AccountedIsSent(s, f);
    var i :| 0 <= i < |s.sent| && IsPieceOf(f, s.sent[i]);
    HeldPieces(s, KeyOf(f), i, f.part);
  }

  lemma RejectConserves(s: State, f: Fragment, now: int, g: Fragment)
    requires Inv(s) && Enabled(s, Deliver(f, now)) && Receive(s.pool, f, now).1 == Duplicate
    ensures Balanced(Next(s, Deliver(f, now)), g)
  {
    RejectedIsHeld(s, f, now);
    assert Balanced(s, g);
  }

  lemma RejectKeeps(s: State, f: Fragment, now: int)
    requires Inv(s) && Enabled(s, Deliver(f, now)) && Receive(s.pool, f, now).1 == Duplicate
    ensures Inv(Next(s, Deliver(f, now)))
  {
    var t := Next(s, Deliver(f, now));
    forall g ensures Balanced(t, g) {
      RejectConserves(s, f, now, g);
    }
    NothingDelivered(s, t);
  }

  lemma GrownHolds(s: State, f: Fragment, now: int, g: Fragment)
    requires Inv(s) && Fits(s.pool, f) && !Occupied(s.pool, f)
    ensures var a := Grown(s.pool, f, now);
            (g.part < |a.slots| && a.slots[g.part] == Some(g)) <==>
            g == f || (Held(s.pool, g) && KeyOf(g) == KeyOf(f))
  {
    var k := KeyOf(f);
    if k in s.pool {
      assert Sound(k, s.pool[k]);
    }
  }

  lemma PendingConserves(s: State, f: Fragment, now: int, g: Fragment)
    requires Inv(s) && Enabled(s, Deliver(f, now)) && Receive(s.pool, f, now).1 == Pending
    ensures Balanced(Next(s, Deliver(f, now)), g)
  {
    assert Balanced(s, g);
    GrownHolds(s, f, now, g);
  }

  lemma PendingKeeps(s: State, f: Fragment, now: int)
    requires Inv(s) && Enabled(s, Deliver(f, now)) && Receive(s.pool, f, now).1 == Pending
    ensures Inv(Next(s, Deliver(f, now)))
  {
    var t := Next(s, Deliver(f, now));
    PoolAddKeepsInv(s.pool, f, now);
    NeverMalformed(s, f);
    forall g ensures Balanced(t, g) {
      PendingConserves(s, f, now, g);
    }
    NothingDelivered(s, t);
  }

  /** A completed assembly is exactly the packet, so the joined record is the event's. */
  lemma CompletionIsWhole(s: State, f: Fragment, now: int, i: int)
    requires Inv(s) && f.count > 1 && Fits(s.pool, f) && PoolAdd(s.pool, f, now).1.Delivered?
    requires 0 <= i < |s.sent| && IsPieceOf(f, s.sent[i])
    ensures Grown(s.pool, f, now).slots == Full(s.sent[i])
    ensures PoolAdd(s.pool, f, now).1.notification == Whole(s.sent[i].event)
  {
    var p, a, k := s.sent[i], Grown(s.pool, f, now), KeyOf(f);
    PoolAddKeepsInv(s.pool, f, now);
    RoomIsCount(s, f, i);
    forall j | 0 <= j < f.count ensures a.slots[j] == Some(Piece(p, j)) {
      assert a.slots[j].Some?;
      if j != f.part && k in s.pool {
        HeldPieces(s, k, i, j);
      }
    }
    assert a.slots == Full(p);
    JoinRestores(p, a.received, a.birth);
  }

  lemma FullCount(p: Packet, g: Fragment)
    ensures multiset(Values(Full(p)))[g] == if IsPieceOf(g, p) then 1 else 0
  {
    ValuesCount(Full(p), g);
  }

  /** A delivery takes each piece of its packet once and nothing else. */
  lemma DeliveryTakesPieces(s: State, f: Fragment, now: int, i: int, g: Fragment)
    requires Inv(s) && f in s.net && Receive(s.pool, f, now).1.Delivered?
    requires 0 <= i < |s.sent| && IsPieceOf(f, s.sent[i])
    ensures Receive(s.pool, f, now).1.notification == Whole(s.sent[i].event)
    ensures Taken(s.pool, f, now)[g] == if IsPieceOf(g, s.sent[i]) then 1 else 0
    ensures f.count > 1 && KeyOf(g) == KeyOf(f) && g != f ==>
              (IsPieceOf(g, s.sent[i]) <==> Held(s.pool, g))
    ensures f.count <= 1 ==> !Held(s.pool, g) || !IsPieceOf(g, s.sent[i])
  {
    var p := s.sent[i];
    if f.count > 1 {
      NeverMalformed(s, f);
      CompletionIsWhole(s, f, now, i);
      FullCount(p, g);
      GrownHolds(s, f, now, g);
    } else {
      assert p.parts == [p.parts[0]] && p.parts[..0] == [];
      assert Flatten(p.parts) == Flatten(p.parts[..0]) + p.parts[0];
      if Held(s.pool, g) {
        assert Sound(KeyOf(g), s.pool[KeyOf(g)]);
      }
    }
  }

  lemma DeliveryMoves(s: State, f: Fragment, now: int, i: int, g: Fragment)
    requires Inv(s) && f in s.net && Receive(s.pool, f, now).1.Delivered?
    requires 0 <= i < |s.sent| && IsPieceOf(f, s.sent[i])
    ensures var t := Next(s, Deliver(f, now));
            t.net[g] + t.consumed[g] + (if Held(t.pool, g) then 1 else 0)
            == s.net[g] + s.consumed[g] + (if Held(s.pool, g) then 1 else 0)
  {
    var t := Next(s, Deliver(f, now));
    DeliveryTakesPieces(s, f, now, i, g);
    if f.count > 1 {
      NeverMalformed(s, f);
      assert t.pool == s.pool - {KeyOf(f)};
      assert !Occupied(s.pool, f);
    } else {
      assert t.pool == s.pool;
    }
  }

  lemma DeliveryKeepsConserved(s: State, f: Fragment, now: int, i: int)
    requires Inv(s) && f in s.net && Receive(s.pool, f, now).1.Delivered?
    requires 0 <= i < |s.sent| && IsPieceOf(f, s.sent[i])
    ensures Conserved(Next(s, Deliver(f, now)))
    ensures PoolInv(Next(s, Deliver(f, now)).pool)
  {
    var t := Next(s, Deliver(f, now));
    if f.count > 1 {
      NeverMalformed(s, f);
      PoolAddKeepsInv(s.pool, f, now);
    }
    forall g ensures Balanced(t, g) {
      assert Balanced(s, g);
      DeliveryMoves(s, f, now, i, g);
    }
  }

  lemma DeliveryConsumes(s: State, f: Fragment, now: int, i: int, m: int)
    requires Inv(s) && f in s.net && Receive(s.pool, f, now).1.Delivered?
    requires 0 <= i < |s.sent| && IsPieceOf(f, s.sent[i]) && 0 <= m < |s.sent|
    ensures ConsumedWhole(Next(s, Deliver(f, now)), s.sent[m])
  {
    var t, q, n := Next(s, Deliver(f, now)), s.sent[m], Whole(s.sent[i].event);
    DeliveryTakesPieces(s, f, now, i, f);
    assert t.out == s.out + [n];
    assert ConsumedWhole(s, q);
    assert Whole(q.event) == n <==> m == i;
    forall j: nat | j < |q.parts|
      ensures t.consumed[Piece(q, j)] == multiset(t.out)[Whole(q.event)]
    {
      DeliveryTakesPieces(s, f, now, i, Piece(q, j));
      assert IsPieceOf(Piece(q, j), s.sent[i]) <==> m == i;
    }
  }

  lemma DeliveryKeepsOut(s: State, f: Fragment, now: int, i: int)
    requires Inv(s) && f in s.net && Receive(s.pool, f, now).1.Delivered?
    requires 0 <= i < |s.sent| && IsPieceOf(f, s.sent[i])
    ensures OutGenuine(Next(s, Deliver(f, now)))
  {
    DeliveryTakesPieces(s, f, now, i, f);
    assert Genuine(s.sent, Whole(s.sent[i].event));
  }

  lemma DeliveryKeeps(s: State, f: Fragment, now: int)
    requires Inv(s) && Enabled(s, Deliver(f, now)) && Receive(s.pool, f, now).1.Delivered?
    ensures Inv(Next(s, Deliver(f, now)))
  {
    var t := Next(s, Deliver(f, now));
    AccountedIsSent(s, f);
    var i :| 0 <= i < |s.sent| && IsPieceOf(f, s.sent[i]);
    DeliveryKeepsConserved(s, f, now, i);
    DeliveryKeepsOut(s, f, now, i);
    forall m | 0 <= m < |t.sent| ensures ConsumedWhole(t, t.sent[m]) {
      DeliveryConsumes(s, f, now, i, m);
    }
  }

  lemma StepKeepsInv(s: State, step: Step)
    requires Inv(s) && Enabled(s, step)
    ensures Inv(Next(s, step))
  {
    match step
    case Send(p) => SendKeeps(s, p);
    case Copy(f) => CopyKeeps(s, f);
    case Lose(f) => LoseKeeps(s, f);
    case Prune(k) => PruneKeeps(s, k);
    case Deliver(f, now) =>
      NeverMalformed(s, f);
      match Receive(s.pool, f, now).1
      case Pending => PendingKeeps(s, f, now);
      case Delivered(_) => DeliveryKeeps(s, f, now);
      case Duplicate => RejectKeeps(s, f, now);
      case Malformed =>
  }

  /** Conservation and the pool invariant hold in every state of every run. */
  lemma {:induction false} RunKeepsInv(steps: seq<Step>)
    requires Allowed(steps)
    ensures Inv(After(steps))
  {
    if steps == [] {
    } else {
      var n := |steps| - 1;
      OneLess(steps);
      RunKeepsInv(steps[..n]);
      StepKeepsInv(After(steps[..n]), steps[n]);
    }
  }
}
