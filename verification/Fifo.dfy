/**
 * A lossless channel that is FIFO per sending connection: the receiver sees an
 * arbitrary merge of what the connections send, one event after another each.
 */
module Fifo {
  import opened Wire
  import opened Reassembly

  /** What each connection sends, in order. */
  type World = seq<seq<Packet>>

  /** The next event of a connection and how many of its fragments have arrived. */
  datatype Position = Position(event: nat, part: nat)

  datatype State = State(positions: seq<Position>, pool: Pool, log: seq<(nat, Notification)>)

  /** The next fragment of a connection arrives at some time. */
  datatype Arrival = Arrival(conn: nat, now: int)

  /** No two events of the world share a key. */
  ghost predicate Apart(w: World, c: int, i: int, d: int, j: int) {
    (0 <= c < |w| && 0 <= i < |w[c]| && 0 <= d < |w| && 0 <= j < |w[d]|
     && Key(w[c][i].event.id) == Key(w[d][j].event.id)) ==> c == d && i == j
  }

  ghost predicate WellFormed(w: World) {
    && (forall c, i {:trigger WellCut(w[c][i])} | 0 <= c < |w| && 0 <= i < |w[c]| :: WellCut(w[c][i]))
    && (forall c, i, d, j {:trigger Apart(w, c, i, d, j)} :: Apart(w, c, i, d, j))
  }

  predicate Placed(w: World, s: State) {
    && |s.positions| == |w|
    && forall c | 0 <= c < |w| :: PositionOk(w[c], s.positions[c])
  }

  predicate PositionOk(sent: seq<Packet>, at: Position) {
    at.event <= |sent| && if at.event < |sent| then at.part < |sent[at.event].parts| || at.part == 0
                          else at.part == 0
  }

  predicate Enabled(w: World, s: State, a: Arrival) {
    Placed(w, s) && a.conn < |w| && s.positions[a.conn].event < |w[a.conn]|
    && s.positions[a.conn].part < |w[a.conn][s.positions[a.conn].event].parts|
  }

  function Advance(at: Position, parts: nat): Position {
    if at.part + 1 == parts then Position(at.event + 1, 0) else Position(at.event, at.part + 1)
  }

  function Next(w: World, s: State, a: Arrival): State
    requires Enabled(w, s, a)
  {
    var at := s.positions[a.conn];
    var p := w[a.conn][at.event];
    var (pool, o) := Receive(s.pool, Piece(p, at.part), a.now);
    State(s.positions[a.conn := Advance(at, |p.parts|)], pool,
          if o.Delivered? then s.log + [(a.conn, o.notification)] else s.log)
  }

  function Start(w: World): State {
    State(seq(|w|, _ => Position(0, 0)), map[], [])
  }

  predicate Allowed(w: World, merge: seq<Arrival>)
    decreases |merge|, 0
  {
    merge == [] || (Allowed(w, merge[..|merge| - 1])
                    && Enabled(w, After(w, merge[..|merge| - 1]), merge[|merge| - 1]))
  }

  function After(w: World, merge: seq<Arrival>): State
    requires Allowed(w, merge)
    decreases |merge|, 1
  {
    if merge == [] then Start(w) else Next(w, After(w, merge[..|merge| - 1]), merge[|merge| - 1])
  }

  /** The deliveries that came from one connection. */
  function From(log: seq<(nat, Notification)>, c: nat): seq<Notification> {
    if log == [] then []
    else
      var last := log[|log| - 1];
      From(log[..|log| - 1], c) + (if last.0 == c then [last.1] else [])
  }

  /** How many fragments have arrived from a connection. */
  function Arrivals(merge: seq<Arrival>, c: nat): nat {
    if merge == [] then 0
    else Arrivals(merge[..|merge| - 1], c) + (if merge[|merge| - 1].conn == c then 1 else 0)
  }

  /** How many fragments the first n events have. */
  function Fragments(sent: seq<Packet>, n: nat): nat
    requires n <= |sent|
  {
    if n == 0 then 0 else Fragments(sent, n - 1) + |sent[n - 1].parts|
  }

  // ---------------------------------------------------------------- the invariant

  ghost predicate Opened(w: World, s: State, c: int)
    requires Placed(w, s)
  {
    0 <= c < |w| && s.positions[c].part > 0
  }

  function Current(w: World, s: State, c: int): Packet
    requires Placed(w, s) && Opened(w, s, c)
  {
    w[c][s.positions[c].event]
  }

  /** The open assembly of a connection holds exactly the fragments that have arrived. */
  ghost predicate OpenAssembly(w: World, s: State, c: int)
    requires Placed(w, s) && Opened(w, s, c)
  {
    var p := Current(w, s, c);
    Holds(s.pool, Key(p.event.id), Pieces(p), s.positions[c].part)
  }

  ghost predicate Belongs(w: World, s: State, k: string, c: int)
    requires Placed(w, s)
  {
    Opened(w, s, c) && k == Key(Current(w, s, c).event.id)
  }

  ghost predicate InOrder(w: World, s: State, c: int)
    requires Placed(w, s) && 0 <= c < |w|
  {
    From(s.log, c) == Wholes(w[c][..s.positions[c].event])
  }

  ghost predicate Inv(w: World, s: State) {
    && Placed(w, s)
    && (forall c | Opened(w, s, c) :: OpenAssembly(w, s, c))
    && (forall k | k in s.pool :: exists c :: Belongs(w, s, k, c))
    && (forall c | 0 <= c < |w| :: InOrder(w, s, c))
  }

  lemma FromOne(log: seq<(nat, Notification)>, d: nat, n: Notification, c: nat)
    ensures From(log + [(d, n)], c) == From(log, c) + (if d == c then [n] else [])
  {
    assert (log + [(d, n)])[..|log|] == log;
  }

  lemma WholesOne(sent: seq<Packet>, i: nat)
    requires i < |sent|
    ensures Wholes(sent[..i + 1]) == Wholes(sent[..i]) + [Whole(sent[i].event)]
  {
  }

  lemma KeysDiffer(w: World, s: State, c: int, d: int)
    requires WellFormed(w) && Placed(w, s) && 0 <= c < |w| && s.positions[c].event < |w[c]| && Opened(w, s, d)
    ensures Key(Current(w, s, d).event.id) == Key(w[c][s.positions[c].event].event.id) ==> c == d
  {
    assert Apart(w, c, s.positions[c].event, d, s.positions[d].event);
  }

  /** Before the next fragment arrives, the pool holds its predecessors, if there are any. */
  lemma PoolBefore(w: World, s: State, c: nat)
    requires WellFormed(w) && Inv(w, s) && c < |w| && s.positions[c].event < |w[c]|
    ensures var at := s.positions[c]; var p := w[c][at.event];
            Holds(s.pool, Key(p.event.id), Pieces(p), at.part)
  {
    var k := Key(w[c][s.positions[c].event].event.id);
    if s.positions[c].part > 0 {
      assert OpenAssembly(w, s, c);
    } else if k in s.pool {
      var d :| Belongs(w, s, k, d);
      KeysDiffer(w, s, c, d);
    }
  }

  /** What the receiver does with the next fragment of a connection. */
  lemma ReceiveNext(w: World, s: State, a: Arrival)
    requires WellFormed(w) && Inv(w, s) && Enabled(w, s, a)
    ensures var at := s.positions[a.conn]; var p := w[a.conn][at.event]; var k := Key(p.event.id);
            var (pool, o) := Receive(s.pool, Piece(p, at.part), a.now);
            if at.part + 1 == |p.parts| then pool == s.pool - {k} && o == Delivered(Whole(p.event))
            else o == Pending && Holds(pool, k, Pieces(p), at.part + 1) && pool == s.pool[k := pool[k]]
  {
    var at := s.positions[a.conn];
    var p := w[a.conn][at.event];
    PoolBefore(w, s, a.conn);
    assert WellCut(w[a.conn][at.event]);
    PiecesAreSeries(p);
    ReceiveInOrder(s.pool, Pieces(p), Key(p.event.id), at.part, a.now);
  }

  lemma StepKeepsOrder(w: World, s: State, a: Arrival, c: int)
    requires WellFormed(w) && Inv(w, s) && Enabled(w, s, a) && 0 <= c < |w|
    ensures Placed(w, Next(w, s, a)) && InOrder(w, Next(w, s, a), c)
  {
    var t := Next(w, s, a);
    var at := s.positions[a.conn];
    var p := w[a.conn][at.event];
    ReceiveNext(w, s, a);
    assert InOrder(w, s, c);
    if at.part + 1 == |p.parts| {
      FromOne(s.log, a.conn, Whole(p.event), c);
      WholesOne(w[a.conn], at.event);
    }
  }

  lemma StepKeepsOpen(w: World, s: State, a: Arrival, c: int)
    requires WellFormed(w) && Inv(w, s) && Enabled(w, s, a)
    requires Placed(w, Next(w, s, a)) && Opened(w, Next(w, s, a), c)
    ensures OpenAssembly(w, Next(w, s, a), c)
  {
    ReceiveNext(w, s, a);
    var t := Next(w, s, a);
    var k := Key(w[a.conn][s.positions[a.conn].event].event.id);
    if c != a.conn {
      assert OpenAssembly(w, s, c);
      KeysDiffer(w, s, a.conn, c);
    }
  }

  lemma StepKeepsOwners(w: World, s: State, a: Arrival, l: string)
    requires WellFormed(w) && Inv(w, s) && Enabled(w, s, a) && Placed(w, Next(w, s, a))
    requires l in Next(w, s, a).pool
    ensures exists c :: Belongs(w, Next(w, s, a), l, c)
  {
    ReceiveNext(w, s, a);
    var t := Next(w, s, a);
    var k := Key(w[a.conn][s.positions[a.conn].event].event.id);
    if l == k {
      assert Belongs(w, t, l, a.conn);
    } else {
      var c :| Belongs(w, s, l, c);
      assert Belongs(w, t, l, c);
    }
  }

  lemma StepKeepsInv(w: World, s: State, a: Arrival)
    requires WellFormed(w) && Inv(w, s) && Enabled(w, s, a)
    ensures Inv(w, Next(w, s, a))
  {
    var t := Next(w, s, a);
    StepKeepsOrder(w, s, a, a.conn);
    forall c | Opened(w, t, c) ensures OpenAssembly(w, t, c) {
      StepKeepsOpen(w, s, a, c);
    }
    forall k | k in t.pool ensures exists c :: Belongs(w, t, k, c) {
      StepKeepsOwners(w, s, a, k);
    }
    forall c | 0 <= c < |w| ensures InOrder(w, t, c) {
      StepKeepsOrder(w, s, a, c);
    }
  }

  lemma {:induction false} RunKeepsInv(w: World, merge: seq<Arrival>)
    requires WellFormed(w) && Allowed(w, merge)
    ensures Inv(w, After(w, merge))
  {
    if merge == [] {
    } else {
      var n := |merge| - 1;
      RunKeepsInv(w, merge[..n]);
      StepKeepsInv(w, After(w, merge[..n]), merge[n]);
    }
  }

  /**
   * At every prefix of every merge, what has been delivered from a connection
   * is exactly the list of its completely arrived events, in sending order,
   * although single-part events bypass the pool.
   */
  lemma PerConnectionOrder(w: World, merge: seq<Arrival>, c: nat)
    requires WellFormed(w) && Allowed(w, merge) && c < |w|
    ensures var s := After(w, merge);
            && s.positions[c].event <= |w[c]|
            && From(s.log, c) == Wholes(w[c])[..s.positions[c].event]
  {
    RunKeepsInv(w, merge);
    var s := After(w, merge);
    assert InOrder(w, s, c);
    WholesPrefix(w[c], s.positions[c].event);
  }

  /** A position that accounts for so many fragments, and stands before a fragment or at the end. */
  predicate StandsAt(sent: seq<Packet>, at: Position, fragments: nat) {
    && at.event <= |sent| && fragments == Fragments(sent, at.event) + at.part
    && if at.event < |sent| then at.part < |sent[at.event].parts| else at.part == 0
  }

  lemma ArrivalAdvances(w: World, s: State, a: Arrival, c: nat, fragments: nat)
    requires WellFormed(w) && Enabled(w, s, a) && c < |w| && StandsAt(w[c], s.positions[c], fragments)
    ensures StandsAt(w[c], Next(w, s, a).positions[c], fragments + if a.conn == c then 1 else 0)
  {
    var at := Next(w, s, a).positions[c];
    assert at.event < |w[c]| ==> WellCut(w[c][at.event]);
  }

  /** A position is where the number of arrivals says: an event is complete when all of its fragments have come. */
  lemma {:induction false} PositionExact(w: World, merge: seq<Arrival>, c: nat)
    requires WellFormed(w) && Allowed(w, merge) && c < |w|
    ensures c < |After(w, merge).positions| && StandsAt(w[c], After(w, merge).positions[c], Arrivals(merge, c))
  {
    if merge == [] {
      assert w[c] != [] ==> WellCut(w[c][0]);
    } else {
      var n := |merge| - 1;
      PositionExact(w, merge[..n], c);
      ArrivalAdvances(w, After(w, merge[..n]), merge[n], c, Arrivals(merge[..n], c));
    }
  }

  lemma EnabledAt(w: World, s: State, a: Arrival, fragments: nat)
    requires Placed(w, s) && a.conn < |w| && StandsAt(w[a.conn], s.positions[a.conn], fragments)
    requires fragments < Fragments(w[a.conn], |w[a.conn]|)
    ensures Enabled(w, s, a)
  {
  }

  /** As long as a connection has events left, its next fragment can arrive. */
  lemma CanArrive(w: World, merge: seq<Arrival>, a: Arrival)
    requires WellFormed(w) && Allowed(w, merge) && a.conn < |w|
    requires Arrivals(merge, a.conn) < Fragments(w[a.conn], |w[a.conn]|)
    ensures Allowed(w, merge + [a]) && After(w, merge + [a]) == Next(w, After(w, merge), a)
  {
    RunKeepsInv(w, merge);
    PositionExact(w, merge, a.conn);
    EnabledAt(w, After(w, merge), a, Arrivals(merge, a.conn));
    assert (merge + [a])[..|merge|] == merge;
  }

  lemma WholesPrefix(sent: seq<Packet>, n: nat)
    requires n <= |sent|
    ensures Wholes(sent[..n]) == Wholes(sent)[..n]
  {
  }

  /** The pool holds one assembly for each connection that is in the middle of an event, no more. */
  lemma OneOpenAssemblyEach(w: World, merge: seq<Arrival>, k: string)
    requires WellFormed(w) && Allowed(w, merge)
    ensures var s := After(w, merge);
            && Placed(w, s)
            && (k in s.pool <==> exists c :: Belongs(w, s, k, c))
            && forall c, l | Belongs(w, s, k, c) && Belongs(w, s, l, c) :: k == l
  {
    RunKeepsInv(w, merge);
    var s := After(w, merge);
    if c :| Belongs(w, s, k, c) {
      assert OpenAssembly(w, s, c);
    }
  }
}
