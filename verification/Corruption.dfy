/** Which events can be sent over a hostile channel without being corrupted. */
module Corruption {
  import opened Wire
  import opened Reassembly
  import opened Channel
  import opened RoundTrip
  import opened Collisions

  /** Two events that share a key are cut into as many parts and differ in one place at most. */
  ghost predicate Harmless(p: Packet, q: Packet) {
    MultiPart(p) && MultiPart(q) && Key(p.event.id) == Key(q.event.id) ==>
      && |p.parts| == |q.parts|
      && forall i: nat, j: nat | i < |p.parts| && j < |p.parts| && Differ(p, q, i) && Differ(p, q, j) :: i == j
  }

  ghost predicate AllHarmless(sent: seq<Packet>) {
    forall i, j | 0 <= i < |sent| && 0 <= j < |sent| :: Harmless(sent[i], sent[j])
  }

  /** Only sent events have come out, and no arrival is going to find its slot missing. */
  ghost predicate Clean(s: State) {
    OutGenuine(s) && forall f | f in s.net && f.count > 1 :: Fits(s.pool, f)
  }

  // ---------------------------------------------------------------- harmless events are not corrupted

  ghost predicate NetFromSent(s: State) {
    forall f | f in s.net :: FromSent(s.sent, f)
  }

  ghost predicate SlotsFromSent(sent: seq<Packet>, slots: seq<Option<Fragment>>) {
    forall j | 0 <= j < |slots| && slots[j].Some? :: FromSent(sent, slots[j].value)
  }

  ghost predicate PoolFromSent(sent: seq<Packet>, pool: Pool) {
    forall k | k in pool :: SlotsFromSent(sent, pool[k].slots)
  }

  ghost predicate MixInv(s: State) {
    && AllWellCut(s.sent)
    && PoolInv(s.pool) && Counted(s.pool)
    && NetFromSent(s)
    && PoolFromSent(s.sent, s.pool)
    && OutGenuine(s)
  }

  /** An arriving piece and the assembly of its key have the same number of parts. */
  lemma RoomMatches(s: State, f: Fragment)
    requires MixInv(s) && AllHarmless(s.sent) && f in s.net && f.count > 1
    ensures Fits(s.pool, f) && Room(s.pool, f) == f.count
  {
    var i :| 0 <= i < |s.sent| && IsPieceOf(f, s.sent[i]);
    var k := KeyOf(f);
    if k in s.pool {
      assert Sound(k, s.pool[k]) && SlotsFromSent(s.sent, s.pool[k].slots);
      var j := SomeSlot(s.pool[k].slots);
      var g := s.pool[k].slots[j].value;
      assert g.count == |s.pool[k].slots|;
      var m :| 0 <= m < |s.sent| && IsPieceOf(g, s.sent[m]);
      assert Harmless(s.sent[i], s.sent[m]);
    }
  }

  /** If a second event differs from a first one, a third one agrees with the second everywhere else. */
  lemma ThirdAgrees(p: Packet, q: Packet, r: Packet, d: nat, j: nat)
    requires MultiPart(p) && |p.parts| == |q.parts| == |r.parts| && d < |p.parts| && j < |p.parts| && j != d
    requires Key(p.event.id) == Key(q.event.id) == Key(r.event.id)
    requires Harmless(p, q) && Harmless(p, r) && Harmless(r, q)
    requires p.parts[d] != q.parts[d]
    ensures r.parts[j] == q.parts[j]
  {
    assert Differ(p, q, d) && !Differ(p, q, j);
    if r.parts[j] != q.parts[j] {
      assert Differ(p, r, j) && !Differ(p, r, d);
      assert Differ(r, q, j) && Differ(r, q, d);
    }
  }

  /** The sender of a slot of an assembly. */
  lemma Supplier(sent: seq<Packet>, slots: seq<Option<Fragment>>, key: string, j: nat) returns (i: int)
    requires SlotsFromSent(sent, slots) && Slotted(slots, key) && j < |slots| && slots[j].Some?
    requires slots[j].value.count == |slots|
    ensures 0 <= i < |sent| && Key(sent[i].event.id) == key && |sent[i].parts| == |slots|
    ensures slots[j] == Some(Piece(sent[i], j))
  {
    i :| 0 <= i < |sent| && IsPieceOf(slots[j].value, sent[i]);
  }

  ghost predicate Complete(slots: seq<Option<Fragment>>) {
    |slots| > 1 && forall j | 0 <= j < |slots| :: slots[j].Some? && slots[j].value.count == |slots|
  }

  /** A complete assembly of pieces of harmless events is one of these events. */
  lemma MixIsGenuine(sent: seq<Packet>, a: Assembly, key: string)
    requires AllWellCut(sent) && AllHarmless(sent)
    requires SlotsFromSent(sent, a.slots) && Slotted(a.slots, key) && Complete(a.slots)
    ensures Genuine(sent, Join(a))
  {
    var i := Supplier(sent, a.slots, key, 0);
    var p := sent[i];
    if d: nat :| d < |a.slots| && DataOf(a.slots[d]) != p.parts[d] {
      var m := Supplier(sent, a.slots, key, d);
      var q := sent[m];
      assert Harmless(p, q) && Differ(p, q, d) && !Differ(p, q, 0);
      forall j: nat | j < |a.slots| ensures DataOf(a.slots[j]) == q.parts[j] {
        var l := Supplier(sent, a.slots, key, j);
        assert Harmless(p, sent[l]) && Harmless(sent[l], q);
        if j != d {
          ThirdAgrees(p, q, sent[l], d, j);
        }
      }
      assert Datas(a.slots) == q.parts;
      assert Join(a) == Whole(q.event);
    } else {
      assert Datas(a.slots) == p.parts;
      assert Join(a) == Whole(p.event);
    }
  }

  lemma GrownFromSent(s: State, f: Fragment, now: int)
    requires MixInv(s) && AllHarmless(s.sent) && f in s.net && f.count > 1
    requires Fits(s.pool, f) && !Occupied(s.pool, f)
    ensures var a := Grown(s.pool, f, now);
            && SlotsFromSent(s.sent, a.slots) && Slotted(a.slots, KeyOf(f))
            && forall j | 0 <= j < |a.slots| && a.slots[j].Some? :: a.slots[j].value.count == |a.slots|
  {
    RoomMatches(s, f);
    GrownCount(s.pool, f, now);
    if KeyOf(f) in s.pool {
      assert SlotsFromSent(s.sent, s.pool[KeyOf(f)].slots);
    }
  }

  /** What comes out is a sent event. */
  lemma ReceivesGenuine(s: State, f: Fragment, now: int)
    requires MixInv(s) && AllHarmless(s.sent) && f in s.net
    ensures var o := Receive(s.pool, f, now).1; o.Delivered? ==> Genuine(s.sent, o.notification)
  {
    if f.count <= 1 {
      var i :| 0 <= i < |s.sent| && IsPieceOf(f, s.sent[i]);
      PiecesKind(s.sent[i], f);
    } else {
      RoomMatches(s, f);
      PoolAddKeepsInv(s.pool, f, now);
      if PoolAdd(s.pool, f, now).1.Delivered? {
        GrownFromSent(s, f, now);
        MixIsGenuine(s.sent, Grown(s.pool, f, now), KeyOf(f));
      }
    }
  }

  /** What is kept in the pool are pieces of sent events. */
  lemma ReceiveKeepsPool(s: State, f: Fragment, now: int)
    requires MixInv(s) && AllHarmless(s.sent) && f in s.net
    ensures var pool := Receive(s.pool, f, now).0;
            PoolInv(pool) && Counted(pool) && PoolFromSent(s.sent, pool)
  {
    if f.count > 1 {
      RoomMatches(s, f);
      PoolAddKeepsInv(s.pool, f, now);
      if !Occupied(s.pool, f) {
        GrownFromSent(s, f, now);
      }
    }
  }

  lemma DeliverKeepsMix(s: State, f: Fragment, now: int)
    requires MixInv(s) && AllHarmless(s.sent) && f in s.net
    ensures MixInv(Next(s, Deliver(f, now)))
  {
    var t := Next(s, Deliver(f, now));
    ReceivesGenuine(s, f, now);
    ReceiveKeepsPool(s, f, now);
    forall n | n in t.out ensures Genuine(t.sent, n) {
      assert n in s.out ==> Genuine(s.sent, n);
    }
    assert NetFromSent(t);
  }

  lemma StillFromSent(sent: seq<Packet>, p: Packet, f: Fragment)
    requires FromSent(sent, f)
    ensures FromSent(sent + [p], f)
  {
    var i :| 0 <= i < |sent| && IsPieceOf(f, sent[i]);
    assert (sent + [p])[i] == sent[i];
  }

  lemma SendKeepsPoolFromSent(s: State, p: Packet)
    requires MixInv(s)
    ensures PoolFromSent(s.sent + [p], s.pool)
  {
    forall k, j | k in s.pool && 0 <= j < |s.pool[k].slots| && s.pool[k].slots[j].Some?
      ensures FromSent(s.sent + [p], s.pool[k].slots[j].value)
    {
      assert SlotsFromSent(s.sent, s.pool[k].slots);
      StillFromSent(s.sent, p, s.pool[k].slots[j].value);
    }
  }

  lemma SendKeepsMix(s: State, p: Packet)
    requires MixInv(s) && WellCut(p)
    ensures MixInv(Next(s, Send(p)))
  {
    var t := Next(s, Send(p));
    SendKeepsPoolFromSent(s, p);
    forall f | f in t.net ensures FromSent(t.sent, f) {
      if f in s.net {
        StillFromSent(s.sent, p, f);
      } else {
        PiecesCount(p, f);
        assert t.sent[|s.sent|] == p;
      }
    }
    forall n | n in t.out ensures Genuine(t.sent, n) {
      assert Genuine(s.sent, n);
      var i :| 0 <= i < |s.sent| && n == Whole(s.sent[i].event);
      assert t.sent[i] == s.sent[i];
    }
  }

  lemma StepKeepsMix(s: State, step: Step)
    requires MixInv(s) && Possible(s, step) && AllHarmless(s.sent)
    ensures MixInv(Next(s, step))
  {
    match step
    case Send(p) => SendKeepsMix(s, p);
    case Deliver(f, now) => DeliverKeepsMix(s, f, now);
    case Copy(f) =>
    case Lose(f) =>
    case Prune(k) =>
      forall x | x in s.pool - {k} ensures SlotsFromSent(s.sent, s.pool[x].slots) && Sound(x, s.pool[x]) {
      }
  }

  lemma HarmlessBefore(s: State, step: Step)
    requires Possible(s, step) && AllHarmless(Next(s, step).sent)
    ensures AllHarmless(s.sent)
  {
    var t := Next(s, step);
    forall i, j | 0 <= i < |s.sent| && 0 <= j < |s.sent| ensures Harmless(s.sent[i], s.sent[j]) {
      assert t.sent[i] == s.sent[i] && t.sent[j] == s.sent[j];
    }
  }

  lemma {:induction false} RunKeepsMix(steps: seq<Step>)
    requires Feasible(steps) && AllHarmless(After(steps).sent)
    ensures MixInv(After(steps))
  {
    if steps == [] {
    } else {
      var n := |steps| - 1;
      HarmlessBefore(After(steps[..n]), steps[n]);
      RunKeepsMix(steps[..n]);
      StepKeepsMix(After(steps[..n]), steps[n]);
    }
  }

  /**
   * Under any loss, reordering, duplication and pruning, only sent events come
   * out, and every arrival finds the assembly of its key as it says, provided
   * that events with several parts that share a key differ in one place at most.
   */
  lemma NoCorruptionOfHarmless(steps: seq<Step>)
    requires Feasible(steps) && AllHarmless(After(steps).sent)
    ensures Clean(After(steps))
    ensures forall f | f in After(steps).net && f.count > 1 :: Room(After(steps).pool, f) == f.count
  {
    var s := After(steps);
    RunKeepsMix(steps);
    forall f | f in s.net && f.count > 1 ensures Fits(s.pool, f) && Room(s.pool, f) == f.count {
      RoomMatches(s, f);
    }
  }

  // ---------------------------------------------------------------- others are

  lemma AllPiecesOfTwo(p: Packet, q: Packet, f: Fragment)
    ensures AllPieces([p, q])[f] == (if IsPieceOf(f, p) then 1 else 0) + (if IsPieceOf(f, q) then 1 else 0)
  {
    AllPiecesGrow([], p);
    AllPiecesGrow([p], q);
    assert [] + [p] == [p] && [p] + [q] == [p, q];
    PiecesCount(p, f);
    PiecesCount(q, f);
  }

  /** A mix of pieces of two events is among all of their pieces. */
  lemma MixAvailable(p: Packet, q: Packet, m: set<nat>)
    requires |p.parts| == |q.parts|
    ensures multiset(MixedPieces(p, q, m)) <= AllPieces([p, q])
  {
    var fs := MixedPieces(p, q, m);
    forall i, j | 0 <= i < j < |fs| ensures fs[i] != fs[j] {
      assert fs[i].part == i && fs[j].part == j;
    }
    forall f ensures multiset(fs)[f] <= AllPieces([p, q])[f] {
      DistinctCount(fs, f);
      AllPiecesOfTwo(p, q, f);
      if f in fs {
        assert f == fs[f.part];
      }
    }
  }

  /** Two events that differ in two places can be mixed to one that neither of them is. */
  lemma MixedRun(p: Packet, q: Packet, m: set<nat>) returns (steps: seq<Step>)
    requires WellCut(p) && WellCut(q) && |p.parts| == |q.parts| && Key(p.event.id) == Key(q.event.id)
    requires Alien(p, q, m)
    ensures Feasible(steps) && After(steps).sent == [p, q] && !Clean(After(steps))
  {
    var fs := MixedPieces(p, q, m);
    MixAvailable(p, q, m);
    DeliverAllRuns([p, q], fs);
    KeyCollisionMixes(p, q, m);
    steps := SendAll([p, q]) + DeliverAll(fs);
    AlienIsNotClean(After(steps), p, q, m);
  }

  lemma AlienIsNotClean(s: State, p: Packet, q: Packet, m: set<nat>)
    requires |p.parts| == |q.parts| && Alien(p, q, m)
    requires s.sent == [p, q] && s.out == [MixedRecord(p, q, m)]
    ensures !Clean(s)
  {
    assert MixedRecord(p, q, m) in s.out && !Genuine(s.sent, MixedRecord(p, q, m));
  }

  /** The first piece of an event makes an assembly with as many slots as the event has parts. */
  lemma FirstPieceKept(p: Packet)
    requires WellCut(p) && MultiPart(p)
    ensures var pool := Feed(map[], [Piece(p, 0)]).0;
            Key(p.event.id) in pool && |pool[Key(p.event.id)].slots| == |p.parts|
  {
    PiecesAreSeries(p);
    FeedInOrder(Pieces(p), Key(p.event.id), 1);
    assert Pieces(p)[..1] == [Piece(p, 0)];
  }

  lemma LastPieceWaits(p: Packet, q: Packet)
    requires 1 < |p.parts| < |q.parts|
    ensures multiset([Piece(p, 0)]) <= AllPieces([p, q])
    ensures Piece(q, |q.parts| - 1) in AllPieces([p, q]) - multiset([Piece(p, 0)])
  {
    AllPiecesOfTwo(p, q, Piece(p, 0));
    AllPiecesOfTwo(p, q, Piece(q, |q.parts| - 1));
  }

  /** The last piece of the longer one of two events finds no slot in an assembly of the other. */
  lemma TooLongRun(p: Packet, q: Packet) returns (steps: seq<Step>)
    requires WellCut(p) && WellCut(q) && 1 < |p.parts| < |q.parts| && Key(p.event.id) == Key(q.event.id)
    ensures Feasible(steps) && After(steps).sent == [p, q] && !Clean(After(steps))
  {
    LastPieceWaits(p, q);
    FirstPieceKept(p);
    DeliverAllRuns([p, q], [Piece(p, 0)]);
    steps := SendAll([p, q]) + DeliverAll([Piece(p, 0)]);
    NotClean(After(steps), Piece(q, |q.parts| - 1));
  }

  lemma NotClean(s: State, f: Fragment)
    requires f in s.net && f.count > 1 && !Fits(s.pool, f)
    ensures !Clean(s)
  {
  }

  lemma HarmfulRun(p: Packet, q: Packet) returns (steps: seq<Step>)
    requires WellCut(p) && WellCut(q) && !Harmless(p, q)
    ensures Feasible(steps) && !Clean(After(steps))
    ensures After(steps).sent == [p, q] || After(steps).sent == [q, p]
  {
    if |p.parts| < |q.parts| {
      steps := TooLongRun(p, q);
    } else if |q.parts| < |p.parts| {
      steps := TooLongRun(q, p);
    } else {
      var i: nat, j: nat :| i < j < |p.parts| && Differ(p, q, i) && Differ(p, q, j);
      TwoDifferencesMix(p, q, i, j);
      var m :| Alien(p, q, m);
      steps := MixedRun(p, q, m);
    }
  }

  // ---------------------------------------------------------------- the exact condition

  ghost predicate SentFrom(universe: iset<Packet>, steps: seq<Step>) {
    Feasible(steps) && forall p | p in After(steps).sent :: p in universe
  }

  /**
   * Whichever of some events are sent, whatever the channel does, only sent
   * events come out and every arrival finds its slot, exactly when any two of
   * the events with several parts that share a key have the same number of
   * parts and differ in one place at most.
   */
  lemma CleanIff(universe: iset<Packet>)
    requires forall p | p in universe :: WellCut(p)
    ensures (forall steps | SentFrom(universe, steps) :: Clean(After(steps))) <==>
            (forall p, q | p in universe && q in universe :: Harmless(p, q))
  {
    if p, q :| p in universe && q in universe && !Harmless(p, q) {
      var steps := HarmfulRun(p, q);
      assert SentFrom(universe, steps);
    } else {
      forall steps | SentFrom(universe, steps) ensures Clean(After(steps)) {
        NoCorruptionOfHarmless(steps);
      }
    }
  }

  function TwoParts(e: Event, x: string, y: string): Packet {
    Packet(e.(payload := x + y), [x, y])
  }

  /**
   * It matters that any of the events may remain unsent: of four events that
   * combine two first with two second parts, every mix is one of the four.
   */
  lemma ClosedFamilyExample(e: Event, a: string, b: string, c: string, d: string, m: set<nat>)
    requires a != b && c != d
    ensures var p, q := TwoParts(e, a, c), TwoParts(e, b, d);
            && WellCut(p) && WellCut(q) && !Harmless(p, q)
            && Genuine([p, TwoParts(e, a, d), TwoParts(e, b, c), q], MixedRecord(p, q, m))
  {
    var p, q := TwoParts(e, a, c), TwoParts(e, b, d);
    FlattenTwo(a, c);
    FlattenTwo(b, d);
    assert Differ(p, q, 0) && Differ(p, q, 1);
    var x, y := if 0 in m then b else a, if 1 in m then d else c;
    FlattenTwo(x, y);
    assert Mix(p, q, m) == [x, y];
    var four := [p, TwoParts(e, a, d), TwoParts(e, b, c), q];
    var i := (if 0 in m then 2 else 0) + (if 1 in m then 1 else 0);
    assert MixedRecord(p, q, m) == Whole(four[i].event);
  }

  lemma FlattenTwo(x: string, y: string)
    ensures Flatten([x, y]) == x + y
  {
    assert [x, y][..1] == [x] && [x][..0] == [];
    assert Flatten([x]) == Flatten([]) + x;
  }
}
