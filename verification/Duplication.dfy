/** How often an event can be delivered when its fragments are copied. */
module Duplication {
  import opened Wire
  import opened Reassembly
  import opened Channel
  import opened RoundTrip

  /** The packet was sent, and its pieces were copied that often. */
  ghost predicate Copied(s: State, p: Packet, copies: seq<nat>) {
    && p in s.sent && |copies| == |p.parts|
    && forall j: nat | j < |copies| :: s.copied[Piece(p, j)] == copies[j]
  }

  ghost predicate CopiedRun(steps: seq<Step>, p: Packet, copies: seq<nat>) {
    Allowed(steps) && Copied(After(steps), p, copies)
  }

  /** Of this piece and its copies, k or k + 1 have arrived, the latter if it is among the first r. */
  ghost predicate PieceAt(s: State, p: Packet, copies: seq<nat>, k: nat, r: nat, j: nat)
    requires j < |copies| == |p.parts|
  {
    && s.copied[Piece(p, j)] == copies[j]
    && s.net[Piece(p, j)] + k + (if j < r then 1 else 0) == 1 + copies[j]
  }

  /** The packet has been delivered k times, and the first r pieces have arrived once more. */
  ghost predicate Stage(s: State, p: Packet, copies: seq<nat>, k: nat, r: nat) {
    && s.sent == [p] && |copies| == |p.parts|
    && (forall j: nat | j < |copies| :: PieceAt(s, p, copies, k, r, j))
    && Deliveries(s, p) == k
    && s.rejected == multiset{}
    && Holds(s.pool, Key(p.event.id), Pieces(p), r)
  }

  ghost predicate Attained(s: State) {
    exists steps :: Feasible(steps) && After(steps) == s
  }

  lemma AttainedNext(s: State, step: Step)
    requires Attained(s) && Possible(s, step)
    ensures Attained(Next(s, step))
  {
    var steps :| Feasible(steps) && After(steps) == s;
    OneMorePossible(steps, step);
  }

  lemma SendOnly(p: Packet, copies: seq<nat>) returns (s: State)
    requires WellCut(p) && |copies| == |p.parts| && forall j | 0 <= j < |copies| :: copies[j] == 0
    ensures Attained(s) && Stage(s, p, copies, 0, 0)
  {
    assert Feasible([]) && After([]) == INIT;
    AttainedNext(INIT, Send(p));
    s := Next(INIT, Send(p));
    forall j: nat | j < |copies| ensures PieceAt(s, p, copies, 0, 0, j) {
      PiecesCount(p, Piece(p, j));
    }
  }

  lemma CopyOne(s: State, p: Packet, copies: seq<nat>, i: nat) returns (t: State)
    requires Attained(s) && Stage(s, p, copies, 0, 0) && i < |copies|
    ensures Attained(t) && Stage(t, p, copies[i := copies[i] + 1], 0, 0)
  {
    assert PieceAt(s, p, copies, 0, 0, i);
    AttainedNext(s, Copy(Piece(p, i)));
    t := Next(s, Copy(Piece(p, i)));
    var more := copies[i := copies[i] + 1];
    forall j: nat | j < |more| ensures PieceAt(t, p, more, 0, 0, j) {
      assert PieceAt(s, p, copies, 0, 0, j);
    }
  }

  /** Any numbers of copies can be made; here of the first i pieces. */
  lemma {:induction false} CopyAll(p: Packet, copies: seq<nat>, i: nat) returns (s: State)
    requires WellCut(p) && i <= |copies| == |p.parts|
    requires forall j | i <= j < |copies| :: copies[j] == 0
    ensures Attained(s) && Stage(s, p, copies, 0, 0)
    decreases i, if i == 0 then 0 else copies[i - 1]
  {
    if i == 0 {
      s := SendOnly(p, copies);
    } else if copies[i - 1] == 0 {
      s := CopyAll(p, copies, i - 1);
    } else {
      var fewer := copies[i - 1 := copies[i - 1] - 1];
      assert fewer[i - 1 := fewer[i - 1] + 1] == copies;
      var before := CopyAll(p, fewer, i);
      s := CopyOne(before, p, fewer, i - 1);
    }
  }

  /** What the arrival of the next piece, in part order, does. */
  lemma NextPiece(s: State, p: Packet, copies: seq<nat>, k: nat, r: nat)
    requires WellCut(p) && Stage(s, p, copies, k, r) && r < |copies| && copies[r] >= k
    ensures Possible(s, Deliver(Piece(p, r), 0))
    ensures var t, last := Next(s, Deliver(Piece(p, r), 0)), r + 1 == |copies|;
            && t.sent == s.sent && t.copied == s.copied && t.net == s.net - multiset{Piece(p, r)}
            && t.out == (if last then s.out + [Whole(p.event)] else s.out) && t.rejected == s.rejected
            && Holds(t.pool, Key(p.event.id), Pieces(p), if last then 0 else r + 1)
  {
    assert PieceAt(s, p, copies, k, r, r);
    PiecesAreSeries(p);
    ReceiveInOrder(s.pool, Pieces(p), Key(p.event.id), r, 0);
  }

  /** The stage after this one. */
  function StageAfter(n: nat, k: nat, r: nat): (nat, nat) {
    if r + 1 == n then (k + 1, 0) else (k, r + 1)
  }

  lemma NextPieceAt(s: State, p: Packet, copies: seq<nat>, k: nat, r: nat, j: nat)
    requires WellCut(p) && Stage(s, p, copies, k, r) && r < |copies| && copies[r] >= k && j < |copies|
    requires Possible(s, Deliver(Piece(p, r), 0))
    requires Next(s, Deliver(Piece(p, r), 0)).copied == s.copied
    requires Next(s, Deliver(Piece(p, r), 0)).net == s.net - multiset{Piece(p, r)}
    ensures var (l, q) := StageAfter(|copies|, k, r); PieceAt(Next(s, Deliver(Piece(p, r), 0)), p, copies, l, q, j)
  {
    assert PieceAt(s, p, copies, k, r, j);
    assert Piece(p, j) == Piece(p, r) <==> j == r;
  }

  lemma NextStage(s: State, p: Packet, copies: seq<nat>, k: nat, r: nat)
    requires WellCut(p) && Stage(s, p, copies, k, r) && r < |copies| && copies[r] >= k
    ensures Possible(s, Deliver(Piece(p, r), 0))
    ensures var (l, q) := StageAfter(|copies|, k, r); Stage(Next(s, Deliver(Piece(p, r), 0)), p, copies, l, q)
  {
    NextPiece(s, p, copies, k, r);
    var t := Next(s, Deliver(Piece(p, r), 0));
    var (l, q) := StageAfter(|copies|, k, r);
    forall j: nat | j < |copies| ensures PieceAt(t, p, copies, l, q, j) {
      NextPieceAt(s, p, copies, k, r, j);
    }
  }

  lemma DeliverOne(s: State, p: Packet, copies: seq<nat>, k: nat, r: nat, l: nat, q: nat) returns (t: State)
    requires WellCut(p) && Attained(s) && Stage(s, p, copies, k, r) && r < |copies| && copies[r] >= k
    requires (l, q) == StageAfter(|copies|, k, r)
    ensures Attained(t) && Stage(t, p, copies, l, q)
  {
    NextStage(s, p, copies, k, r);
    AttainedNext(s, Deliver(Piece(p, r), 0));
    t := Next(s, Deliver(Piece(p, r), 0));
  }

  /** There are enough pieces and copies to come to this stage. */
  predicate Enough(copies: seq<nat>, k: nat, r: nat) {
    forall j | 0 <= j < |copies| :: k + (if j < r then 1 else 0) <= 1 + copies[j]
  }

  /** The stage before this one. */
  function StageBefore(n: nat, k: nat, r: nat): (nat, nat)
    requires n > 0 && (k > 0 || r > 0)
  {
    if r == 0 then (k - 1, n - 1) else (k, r - 1)
  }

  lemma EnoughBefore(copies: seq<nat>, k: nat, r: nat)
    requires Enough(copies, k, r) && r < |copies| && (k > 0 || r > 0)
    ensures var (l, q) := StageBefore(|copies|, k, r);
            q < |copies| && Enough(copies, l, q) && copies[q] >= l && StageAfter(|copies|, l, q) == (k, r)
  {
  }

  /** Rounds of arrivals in part order. */
  lemma {:induction false} DeliverRounds(p: Packet, copies: seq<nat>, k: nat, r: nat) returns (s: State)
    requires WellCut(p) && r < |copies| == |p.parts|
    requires Enough(copies, k, r)
    ensures Attained(s) && Stage(s, p, copies, k, r)
    decreases k, r
  {
    if k == 0 && r == 0 {
      s := CopyAll(p, copies, |copies|);
    } else {
      EnoughBefore(copies, k, r);
      var (l, q) := StageBefore(|copies|, k, r);
      s := DeliverRounds(p, copies, l, q);
      s := DeliverOne(s, p, copies, l, q, k, r);
    }
  }

  /** If every piece is copied at least m times, the event can be delivered m + 1 times, without a rejection. */
  lemma DeliveriesReached(p: Packet, copies: seq<nat>, m: nat)
    requires WellCut(p) && |copies| == |p.parts| && forall j | 0 <= j < |copies| :: copies[j] >= m
    ensures exists steps :: CopiedRun(steps, p, copies) && After(steps).rejected == multiset{}
                            && Deliveries(After(steps), p) == m + 1
  {
    var s := DeliverRounds(p, copies, m + 1, 0);
    var steps :| Feasible(steps) && After(steps) == s;
    assert Distinct([p]);
    forall j: nat | j < |copies| ensures s.copied[Piece(p, j)] == copies[j] {
      assert PieceAt(s, p, copies, m + 1, 0, j);
    }
    assert CopiedRun(steps, p, copies);
  }

  /**
   * Given how often each piece is copied, no run delivers the event more than
   * m times exactly when some piece is copied less than m times; so at most
   * once exactly when some piece is never copied. It makes no difference if
   * the receiver stops at the first fragment that is rejected.
   */
  lemma DeliveryBoundIff(p: Packet, copies: seq<nat>, m: nat)
    requires WellCut(p) && |copies| == |p.parts|
    ensures (forall steps | CopiedRun(steps, p, copies) :: Deliveries(After(steps), p) <= m) <==>
            exists j :: 0 <= j < |copies| && copies[j] < m
    ensures (forall steps | CopiedRun(steps, p, copies) && After(steps).rejected == multiset{} ::
               Deliveries(After(steps), p) <= m) <==>
            exists j :: 0 <= j < |copies| && copies[j] < m
  {
    if j :| 0 <= j < |copies| && copies[j] < m {
      forall steps | CopiedRun(steps, p, copies) ensures Deliveries(After(steps), p) <= m {
        var i :| 0 <= i < |After(steps).sent| && After(steps).sent[i] == p;
        RunKeepsInv(steps);
        DeliveryBound(After(steps), i, j);
      }
    } else {
      DeliveriesReached(p, copies, m);
    }
  }
}
