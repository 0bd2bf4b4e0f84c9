/** What happens when events with several fragments share an assembly key. */
module Collisions {
  import opened Wire
  import opened Reassembly
  import opened Channel
  import opened RoundTrip

  // ---------------------------------------------------------------- mixed records

  /** The parts of the first packet, except that those in m come from the second one. */
  function Mix(p: Packet, q: Packet, m: set<nat>): seq<string>
    requires |p.parts| == |q.parts|
  {
    seq(|p.parts|, j requires 0 <= j < |p.parts| => if j in m then q.parts[j] else p.parts[j])
  }

  function MixedPieces(p: Packet, q: Packet, m: set<nat>): seq<Fragment>
    requires |p.parts| == |q.parts|
  {
    seq(|p.parts|, j requires 0 <= j < |p.parts| => if j in m then Piece(q, j) else Piece(p, j))
  }

  /** The mixed parts under the identity and the header of the event that the first one comes from. */
  function MixedRecord(p: Packet, q: Packet, m: set<nat>): Notification
    requires |p.parts| == |q.parts|
  {
    Whole(if 0 in m then q.event else p.event).(data := Flatten(Mix(p, q, m)))
  }

  /** The receiver has taken the first r fragments of a series, or all of them and let the record out. */
  ghost predicate HasTaken(result: (Pool, seq<Notification>), fs: seq<Fragment>, key: string, r: nat)
    requires |fs| > 0
  {
    if r == |fs| then result == (map[], [JoinOf(fs)])
    else Holds(result.0, key, fs, r) && result.0.Keys <= {key} && result.1 == []
  }

  lemma TakeOne(before: (Pool, seq<Notification>), fs: seq<Fragment>, key: string, r: nat)
    requires Series(fs, key) && r < |fs| && HasTaken(before, fs, key, r)
    ensures HasTaken(Fed(before, fs[r]), fs, key, r + 1)
  {
    ReceiveInOrder(before.0, fs, key, r, 0);
    assert before.0 - {key} == map[];
    assert before.1 == [] ==> before.1 + [JoinOf(fs)] == [JoinOf(fs)];
  }

  lemma {:induction false} FeedInOrder(fs: seq<Fragment>, key: string, r: nat)
    requires Series(fs, key) && r <= |fs| && |fs| > 0
    ensures HasTaken(Feed(map[], fs[..r]), fs, key, r)
  {
    if r == 0 {
    } else {
      FeedInOrder(fs, key, r - 1);
      TakeOne(Feed(map[], fs[..r - 1]), fs, key, r - 1);
      FeedOne(map[], fs[..r - 1], fs[r - 1]);
      assert fs[..r] == fs[..r - 1] + [fs[r - 1]];
    }
  }

  /** Any mix of two events with the same key and number of parts comes out as one record. */
  lemma KeyCollisionMixes(p: Packet, q: Packet, m: set<nat>)
    requires |p.parts| == |q.parts| >= 1 && Key(p.event.id) == Key(q.event.id)
    ensures Feed(map[], MixedPieces(p, q, m)) == (map[], [MixedRecord(p, q, m)])
  {
    var fs := MixedPieces(p, q, m);
    FeedInOrder(fs, Key(p.event.id), |fs|);
    assert fs[..|fs|] == fs;
    assert seq(|fs|, j requires 0 <= j < |fs| => fs[j].notification.data) == Mix(p, q, m);
  }

  /** The packets have different messages there; identity and header come with the first one. */
  predicate Differ(p: Packet, q: Packet, j: nat)
    requires j < |p.parts| == |q.parts|
  {
    p.parts[j] != q.parts[j] || (j == 0 && (p.event.id != q.event.id || p.event.header != q.event.header))
  }

  ghost predicate Alien(p: Packet, q: Packet, m: set<nat>)
    requires |p.parts| == |q.parts|
  {
    MixedRecord(p, q, m) != Whole(p.event) && MixedRecord(p, q, m) != Whole(q.event)
  }

  lemma FlattenUpdate(parts: seq<string>, i: nat, x: string)
    requires i < |parts|
    ensures Flatten(parts[i := x]) == Flatten(parts[..i]) + x + Flatten(parts[i + 1..])
  {
    var head, tail := parts[..i], parts[i + 1..];
    assert parts[i := x] == head + [x] + tail;
    FlattenConcat(head + [x], tail);
    assert (head + [x])[..i] == head;
  }

  lemma SameMiddle(head: string, x: string, s: string, y: string, t: string)
    requires |x| == |y| && head + x + s == head + y + t
    ensures x == y
  {
    var n := |head|;
    assert (head + x + s)[n..n + |x|] == x && (head + y + t)[n..n + |y|] == y;
  }

  /** One foreign part changes the record. */
  lemma ForeignPartShows(p: Packet, q: Packet, i: nat)
    requires WellCut(p) && i < |p.parts| == |q.parts| && Differ(p, q, i)
    ensures MixedRecord(p, q, {i}) != Whole(p.event)
    ensures |MixedRecord(p, q, {i}).data| == |p.event.payload| + |q.parts[i]| - |p.parts[i]|
  {
    assert Mix(p, q, {i}) == p.parts[i := q.parts[i]];
    assert p.parts == p.parts[i := p.parts[i]];
    FlattenUpdate(p.parts, i, q.parts[i]);
    FlattenUpdate(p.parts, i, p.parts[i]);
    var tail := Flatten(p.parts[i + 1..]);
    if |p.parts[i]| == |q.parts[i]| && MixedRecord(p, q, {i}).data == p.event.payload {
      SameMiddle(Flatten(p.parts[..i]), q.parts[i], tail, p.parts[i], tail);
    }
  }

  /** If one foreign part in either of two places gave the same record, the parts differ in length. */
  lemma PlacesShow(p: Packet, q: Packet, i: nat, j: nat)
    requires WellCut(p) && i < j < |p.parts| == |q.parts| && Differ(p, q, i) && Differ(p, q, j)
    requires |p.parts[i]| == |q.parts[i]|
    ensures MixedRecord(p, q, {i}) != MixedRecord(p, q, {j})
  {
    var a, b := Mix(p, q, {i}), Mix(p, q, {j});
    assert a == p.parts[i := q.parts[i]];
    assert b == p.parts[j := q.parts[j]] && b == b[i := p.parts[i]] && b[..i] == p.parts[..i];
    FlattenUpdate(p.parts, i, q.parts[i]);
    FlattenUpdate(b, i, p.parts[i]);
    if Flatten(a) == Flatten(b) {
      SameMiddle(Flatten(p.parts[..i]), q.parts[i], Flatten(p.parts[i + 1..]), p.parts[i], Flatten(b[i + 1..]));
    }
  }

  lemma TwoPartsLength(p: Packet, q: Packet, i: nat, j: nat)
    requires WellCut(p) && i < j < |p.parts| == |q.parts|
    ensures |MixedRecord(p, q, {i, j}).data|
         == |p.event.payload| + |q.parts[i]| - |p.parts[i]| + |q.parts[j]| - |p.parts[j]|
  {
    var a := p.parts[i := q.parts[i]];
    assert Mix(p, q, {i, j}) == a[j := q.parts[j]] && a == a[j := p.parts[j]];
    assert p.parts == p.parts[i := p.parts[i]];
    FlattenUpdate(a, j, q.parts[j]);
    FlattenUpdate(a, j, p.parts[j]);
    FlattenUpdate(p.parts, i, q.parts[i]);
    FlattenUpdate(p.parts, i, p.parts[i]);
  }

  /** Two places where the packets differ are enough for a record that nobody has sent. */
  lemma TwoDifferencesMix(p: Packet, q: Packet, i: nat, j: nat)
    requires WellCut(p) && WellCut(q) && i < j < |p.parts| == |q.parts| && Differ(p, q, i) && Differ(p, q, j)
    ensures Alien(p, q, {i}) || Alien(p, q, {j}) || Alien(p, q, {i, j})
  {
    ForeignPartShows(p, q, i);
    ForeignPartShows(p, q, j);
    TwoPartsLength(p, q, i, j);
    if |p.parts[i]| == |q.parts[i]| {
      PlacesShow(p, q, i, j);
    }
  }

  /** With one difference at most, every mix is one of the two events. */
  lemma OneDifferenceIsHarmless(p: Packet, q: Packet, m: set<nat>)
    requires WellCut(p) && WellCut(q) && |p.parts| == |q.parts|
    requires forall i: nat, j: nat | i < j < |p.parts| :: !(Differ(p, q, i) && Differ(p, q, j))
    ensures !Alien(p, q, m)
  {
    if i: nat :| i < |p.parts| && Differ(p, q, i) && i in m {
      forall j: nat | j < |p.parts| ensures Mix(p, q, m)[j] == q.parts[j] {
        assert j != i ==> !Differ(p, q, j);
      }
      assert Mix(p, q, m) == q.parts;
      assert i != 0 ==> !Differ(p, q, 0);
    } else {
      forall j: nat | j < |p.parts| ensures Mix(p, q, m)[j] == p.parts[j] {
        assert j in m ==> !Differ(p, q, j);
      }
      assert Mix(p, q, m) == p.parts;
      assert 0 in m ==> !Differ(p, q, 0);
    }
  }

  /** Some mix of two events is neither of them exactly when they differ in two places. */
  lemma MixesAlienIff(p: Packet, q: Packet)
    requires WellCut(p) && WellCut(q) && |p.parts| == |q.parts|
    ensures (exists m :: Alien(p, q, m)) <==>
            exists i: nat, j: nat :: i < j < |p.parts| && Differ(p, q, i) && Differ(p, q, j)
  {
    if i: nat, j: nat :| i < j < |p.parts| && Differ(p, q, i) && Differ(p, q, j) {
      TwoDifferencesMix(p, q, i, j);
    } else if m :| Alien(p, q, m) {
      OneDifferenceIsHarmless(p, q, m);
    }
  }

  // ---------------------------------------------------------------- single-part events

  /** Several parts, so the event goes through the pool. */
  predicate MultiPart(p: Packet) {
    |p.parts| > 1
  }

  /** No two events with several parts share a key. */
  ghost predicate MultiPartDistinct(sent: seq<Packet>) {
    forall i, j | 0 <= i < j < |sent| && MultiPart(sent[i]) && MultiPart(sent[j]) ::
      Key(sent[i].event.id) != Key(sent[j].event.id)
  }

  function MultiParts(sent: seq<Packet>): (r: seq<Packet>)
    ensures forall p :: p in r <==> p in sent && MultiPart(p)
  {
    if sent == [] then []
    else
      var n := |sent| - 1;
      MultiParts(sent[..n]) + (if MultiPart(sent[n]) then [sent[n]] else [])
  }

  function Pooled(arrivals: seq<Fragment>): seq<Fragment> {
    if arrivals == [] then []
    else
      var n := |arrivals| - 1;
      Pooled(arrivals[..n]) + (if arrivals[n].count > 1 then [arrivals[n]] else [])
  }

  function Bypassing(arrivals: seq<Fragment>): seq<Notification> {
    if arrivals == [] then []
    else
      var n := |arrivals| - 1;
      Bypassing(arrivals[..n]) + (if arrivals[n].count > 1 then [] else [arrivals[n].notification])
  }

  lemma OnePooled(init: seq<Fragment>, f: Fragment)
    requires f.count > 1
    ensures Pooled(init + [f]) == Pooled(init) + [f] && Bypassing(init + [f]) == Bypassing(init)
  {
    assert (init + [f])[..|init|] == init;
  }

  lemma OneBypassing(init: seq<Fragment>, f: Fragment)
    requires f.count <= 1
    ensures Pooled(init + [f]) == Pooled(init) && Bypassing(init + [f]) == Bypassing(init) + [f.notification]
  {
    assert (init + [f])[..|init|] == init;
  }

  /** One receiver has the pool of the other and what bypasses it in addition. */
  ghost predicate Splits(all: (Pool, seq<Notification>), pooled: (Pool, seq<Notification>), rest: seq<Notification>) {
    all.0 == pooled.0 && multiset(all.1) == multiset(pooled.1) + multiset(rest)
  }

  lemma OneMoreSplits(all: (Pool, seq<Notification>), pooled: (Pool, seq<Notification>), rest: seq<Notification>,
                      f: Fragment)
    requires Splits(all, pooled, rest)
    ensures f.count > 1 ==> Splits(Fed(all, f), Fed(pooled, f), rest)
    ensures f.count <= 1 ==> Splits(Fed(all, f), pooled, rest + [f.notification])
  {
  }

  /** Fragments that bypass the pool can be handled apart. */
  lemma {:induction false} FeedSplits(arrivals: seq<Fragment>)
    ensures Splits(Feed(map[], arrivals), Feed(map[], Pooled(arrivals)), Bypassing(arrivals))
  {
    if arrivals == [] {
    } else {
      var init, f := arrivals[..|arrivals| - 1], arrivals[|arrivals| - 1];
      assert arrivals == init + [f];
      FeedSplits(init);
      OneMoreSplits(Feed(map[], init), Feed(map[], Pooled(init)), Bypassing(init), f);
      FeedOne(map[], init, f);
      if f.count > 1 {
        OnePooled(init, f);
        FeedOne(map[], Pooled(init), f);
      } else {
        OneBypassing(init, f);
      }
    }
  }

  lemma {:induction false} PooledCount(arrivals: seq<Fragment>, f: Fragment)
    ensures multiset(Pooled(arrivals))[f] == if f.count > 1 then multiset(arrivals)[f] else 0
  {
    if arrivals == [] {
    } else {
      var init, g := arrivals[..|arrivals| - 1], arrivals[|arrivals| - 1];
      assert arrivals == init + [g];
      PooledCount(init, f);
      if g.count > 1 {
        OnePooled(init, g);
      } else {
        OneBypassing(init, g);
      }
    }
  }

  /** A record that bypasses the pool comes as the only fragment of its event. */
  function Single(n: Notification): Fragment {
    Fragment(n, 0, 1)
  }

  lemma {:induction false} BypassingCount(arrivals: seq<Fragment>, n: Notification)
    requires forall f | f in arrivals && f.count <= 1 :: f == Single(f.notification)
    ensures multiset(Bypassing(arrivals))[n] == multiset(arrivals)[Single(n)]
  {
    if arrivals == [] {
    } else {
      var m := |arrivals| - 1;
      assert arrivals == arrivals[..m] + [arrivals[m]];
      assert arrivals[m] in arrivals;
      BypassingCount(arrivals[..m], n);
    }
  }

  /** The pieces of an event: itself, or pooled fragments only. */
  lemma PiecesKind(p: Packet, f: Fragment)
    requires WellCut(p) && IsPieceOf(f, p)
    ensures f.count > 1 <==> MultiPart(p)
    ensures f.count <= 1 ==> f == Single(Whole(p.event))
  {
    PiecesAreSeries(p);
    if |p.parts| == 1 {
      ReceiveInOrder(map[], Pieces(p), Key(p.event.id), 0, 0);
    }
  }

  lemma MultiPartsGrow(sent: seq<Packet>, p: Packet)
    ensures MultiParts(sent + [p]) == if MultiPart(p) then MultiParts(sent) + [p] else MultiParts(sent)
  {
    assert (sent + [p])[..|sent|] == sent;
  }

  /** The pieces of one event, by kind. */
  lemma PiecesByKind(p: Packet, f: Fragment)
    requires WellCut(p)
    ensures multiset(Pieces(p))[f] > 0 ==> (f.count > 1 <==> MultiPart(p))
    ensures multiset(Pieces(p))[f] > 0 && f.count <= 1 ==> f == Single(f.notification)
  {
    PiecesCount(p, f);
    if IsPieceOf(f, p) {
      PiecesKind(p, f);
    }
  }

  /** Pooled pieces belong to events with several parts, the others are the records of the others. */
  ghost predicate ByKind(sent: seq<Packet>, f: Fragment) {
    && AllPieces(MultiParts(sent))[f] == (if f.count > 1 then AllPieces(sent)[f] else 0)
    && (f.count <= 1 && AllPieces(sent)[f] > 0 ==> f == Single(f.notification))
  }

  lemma MultiPiecesGrow(sent: seq<Packet>, p: Packet, f: Fragment)
    ensures AllPieces(sent + [p])[f] == AllPieces(sent)[f] + multiset(Pieces(p))[f]
    ensures AllPieces(MultiParts(sent + [p]))[f]
         == AllPieces(MultiParts(sent))[f] + if MultiPart(p) then multiset(Pieces(p))[f] else 0
  {
    AllPiecesGrow(sent, p);
    MultiPartsGrow(sent, p);
    AllPiecesGrow(MultiParts(sent), p);
  }

  lemma OneMoreByKind(sent: seq<Packet>, p: Packet, f: Fragment)
    requires ByKind(sent, f) && WellCut(p)
    ensures ByKind(sent + [p], f)
  {
    MultiPiecesGrow(sent, p, f);
    PiecesByKind(p, f);
  }

  lemma {:induction false} AllPiecesCount(sent: seq<Packet>, f: Fragment)
    requires AllWellCut(sent)
    ensures ByKind(sent, f)
  {
    if sent == [] {
    } else {
      var init, p := sent[..|sent| - 1], sent[|sent| - 1];
      assert sent == init + [p];
      AllPiecesCount(init, f);
      OneMoreByKind(init, p, f);
    }
  }

  /** The record of an event with one part is its only piece. */
  lemma SinglePiece(p: Packet, n: Notification)
    requires WellCut(p)
    ensures multiset(Pieces(p))[Single(n)] == if !MultiPart(p) && n == Whole(p.event) then 1 else 0
  {
    PiecesCount(p, Single(n));
    PiecesKind(p, Piece(p, 0));
  }

  lemma {:induction false} WholesCountSplits(sent: seq<Packet>, n: Notification)
    requires AllWellCut(sent)
    ensures multiset(Wholes(sent))[n] == multiset(Wholes(MultiParts(sent)))[n] + AllPieces(sent)[Single(n)]
  {
    if sent == [] {
    } else {
      var init, p := sent[..|sent| - 1], sent[|sent| - 1];
      assert sent == init + [p];
      WholesCountSplits(init, n);
      AllPiecesGrow(init, p);
      MultiPartsGrow(init, p);
      WholesGrow(init, p);
      WholesGrow(MultiParts(init), p);
      SinglePiece(p, n);
    }
  }

  lemma WholesGrow(sent: seq<Packet>, p: Packet)
    ensures Wholes(sent + [p]) == Wholes(sent) + [Whole(p.event)]
  {
  }

  lemma AllPiecesGrow(sent: seq<Packet>, p: Packet)
    ensures AllPieces(sent + [p]) == AllPieces(sent) + multiset(Pieces(p))
  {
    assert (sent + [p])[..|sent|] == sent;
  }

  lemma {:induction false} MultiPartsDistinct(sent: seq<Packet>)
    requires AllWellCut(sent) && MultiPartDistinct(sent)
    ensures Distinct(MultiParts(sent))
  {
    if sent == [] {
    } else {
      var init, p := sent[..|sent| - 1], sent[|sent| - 1];
      assert sent == init + [p];
      MultiPartsDistinct(init);
      MultiPartsGrow(init, p);
      var multi := MultiParts(init);
      if MultiPart(p) {
        forall i | 0 <= i < |multi| ensures Key(multi[i].event.id) != Key(p.event.id) {
          assert multi[i] in multi;
        }
        DistinctAfter(multi, p);
      }
    }
  }

  /** The events have come out, each once, and the pool is empty. */
  predicate Restored(sent: seq<Packet>, arrivals: seq<Fragment>) {
    var (pool, out) := Feed(map[], arrivals);
    pool == map[] && multiset(out) == multiset(Wholes(sent))
  }

  /** The pooled arrivals are the pieces of the events with several parts. */
  lemma PooledPieces(sent: seq<Packet>, arrivals: seq<Fragment>)
    requires AllWellCut(sent) && multiset(arrivals) == AllPieces(sent)
    ensures multiset(Pooled(arrivals)) == AllPieces(MultiParts(sent))
  {
    forall f ensures multiset(Pooled(arrivals))[f] == AllPieces(MultiParts(sent))[f] {
      PooledCount(arrivals, f);
      AllPiecesCount(sent, f);
    }
  }

  /** The other arrivals are the other events. */
  lemma BypassingEvents(sent: seq<Packet>, arrivals: seq<Fragment>)
    requires AllWellCut(sent) && multiset(arrivals) == AllPieces(sent)
    ensures multiset(Wholes(sent)) == multiset(Wholes(MultiParts(sent))) + multiset(Bypassing(arrivals))
  {
    forall f | f in arrivals && f.count <= 1 ensures f == Single(f.notification) {
      assert f in multiset(arrivals);
      AllPiecesCount(sent, f);
    }
    forall n
      ensures multiset(Wholes(sent))[n]
           == (multiset(Wholes(MultiParts(sent))) + multiset(Bypassing(arrivals)))[n]
    {
      BypassingCount(arrivals, n);
      WholesCountSplits(sent, n);
    }
  }

  /** It is enough that the keys of events with several parts are distinct. */
  lemma MultiPartsSuffice(sent: seq<Packet>, arrivals: seq<Fragment>)
    requires AllWellCut(sent) && MultiPartDistinct(sent) && multiset(arrivals) == AllPieces(sent)
    ensures Restored(sent, arrivals)
  {
    MultiPartsDistinct(sent);
    PooledPieces(sent, arrivals);
    AnyPermutation(MultiParts(sent), Pooled(arrivals));
    FeedSplits(arrivals);
    BypassingEvents(sent, arrivals);
  }

  // ---------------------------------------------------------------- a wasted first piece

  function Count<T>(s: seq<T>, p: T -> bool): nat {
    if s == [] then 0 else Count(s[..|s| - 1], p) + (if p(s[|s| - 1]) then 1 else 0)
  }

  lemma {:induction false} CountConcat<T>(s: seq<T>, t: seq<T>, p: T -> bool)
    ensures Count(s + t, p) == Count(s, p) + Count(t, p)
    decreases |t|
  {
    if t == [] {
      assert s + t == s;
    } else {
      var n := |t| - 1;
      assert (s + t)[..|s + t| - 1] == s + t[..n];
      CountConcat(s, t[..n], p);
    }
  }

  lemma CountOne<T>(s: seq<T>, x: T, p: T -> bool)
    ensures Count(s + [x], p) == Count(s, p) + if p(x) then 1 else 0
  {
    assert (s + [x])[..|s|] == s;
  }

  lemma CountMiddle<T>(s: seq<T>, x: T, t: seq<T>, p: T -> bool)
    ensures Count(s + [x] + t, p) == Count(s + t, p) + if p(x) then 1 else 0
  {
    CountOne(s, x, p);
    CountConcat(s, t, p);
    CountConcat(s + [x], t, p);
  }

  lemma MultisetMiddle<T>(s: seq<T>, x: T, t: seq<T>)
    ensures multiset(s + t) == multiset(s + [x] + t) - multiset{x}
  {
  }

  lemma CountRemove<T>(s: seq<T>, x: T, p: T -> bool) returns (t: seq<T>)
    requires x in s
    ensures multiset(t) == multiset(s) - multiset{x}
    ensures Count(s, p) == Count(t, p) + if p(x) then 1 else 0
  {
    var i :| 0 <= i < |s| && s[i] == x;
    var a, b := s[..i], s[i + 1..];
    CountMiddle(a, x, b, p);
    MultisetMiddle(a, x, b);
    assert s == a + [x] + b;
    t := a + b;
  }

  lemma {:induction false} CountPermutes<T>(s: seq<T>, t: seq<T>, p: T -> bool)
    requires multiset(s) == multiset(t)
    ensures Count(s, p) == Count(t, p)
    decreases |s|
  {
    if s == [] {
      assert |multiset(t)| == 0;
    } else {
      var x := s[0];
      assert x in multiset(t);
      var u := CountRemove(s, x, p);
      var v := CountRemove(t, x, p);
      assert |multiset(u)| == |multiset(s)| - 1;
      CountPermutes(u, v, p);
    }
  }

  /** Fragments without which no event with this key can come out. */
  function Opening(key: string): Fragment -> bool {
    (f: Fragment) => KeyOf(f) == key && (f.count <= 1 || f.part == 0)
  }

  function Keyed(key: string): Notification -> bool {
    (n: Notification) => Key(n.id) == key
  }

  /** The pool has the first piece of an event with this key. */
  function Begun(pool: Pool, key: string): nat {
    if key in pool && |pool[key].slots| > 0 && pool[key].slots[0].Some? then 1 else 0
  }

  function Out(o: Outcome, key: string): nat {
    if o.Delivered? && Key(o.notification.id) == key then 1 else 0
  }

  /** Every delivery needs an opening fragment of its own. */
  lemma OpeningNeeded(pool: Pool, f: Fragment, key: string)
    requires PoolInv(pool)
    ensures var (q, o) := Receive(pool, f, 0);
            && PoolInv(q)
            && Out(o, key) + Begun(q, key) <= Begun(pool, key) + (if Opening(key)(f) then 1 else 0)
  {
    if f.count > 1 && Fits(pool, f) && !Occupied(pool, f) {
      PoolAddKeepsInv(pool, f, 0);
      GrownCount(pool, f, 0);
      var a := Grown(pool, f, 0);
      assert a.slots[0].Some? ==> KeyOf(a.slots[0].value) == KeyOf(f);
      assert a.received == |a.slots| ==> a.slots[0].Some?;
    }
  }

  lemma TwoOpenings(p: Packet, q: Packet)
    requires MultiPart(p) && MultiPart(q) && Key(p.event.id) == Key(q.event.id)
    ensures var arrivals, key := [Piece(p, 0), Piece(q, 0)], Key(p.event.id);
            var (pool, out) := Feed(map[], arrivals);
            && PoolInv(pool) && out == [] && Begun(pool, key) == 1 && Count(arrivals, Opening(key)) == 2
  {
    var none: Pool := map[];
    var f, g, key := Piece(p, 0), Piece(q, 0), Key(p.event.id);
    FeedOne(none, [], f);
    FeedOne(none, [f], g);
    assert [] + [f] == [f] && [f] + [g] == [f, g];
    CountOne([], f, Opening(key));
    CountOne([f], g, Opening(key));
    PoolAddKeepsInv(none, f, 0);
    assert Receive(none, f, 0).1 == Pending;
  }

  /** If the first pieces of two events with one key come first, one of them is wasted. */
  lemma {:induction false} WastedOpening(p: Packet, q: Packet, rest: seq<Fragment>)
    requires MultiPart(p) && MultiPart(q) && Key(p.event.id) == Key(q.event.id)
    ensures var arrivals, key := [Piece(p, 0), Piece(q, 0)] + rest, Key(p.event.id);
            var (pool, out) := Feed(map[], arrivals);
            PoolInv(pool) && Count(out, Keyed(key)) + Begun(pool, key) < Count(arrivals, Opening(key))
  {
    var none: Pool := map[];
    var f, g, key := Piece(p, 0), Piece(q, 0), Key(p.event.id);
    if rest == [] {
      TwoOpenings(p, q);
      assert [f, g] + rest == [f, g];
    } else {
      var n := |rest| - 1;
      var before := [f, g] + rest[..n];
      assert [f, g] + rest == before + [rest[n]];
      CountOne(before, rest[n], Opening(key));
      WastedOpening(p, q, rest[..n]);
      FeedOne(none, before, rest[n]);
      var (pool, out) := Feed(none, before);
      var o := Receive(pool, rest[n], 0).1;
      OpeningNeeded(pool, rest[n], key);
      if o.Delivered? {
        CountOne(out, o.notification, Keyed(key));
      }
    }
  }

  // ---------------------------------------------------------------- the exact condition

  /** All pieces of all packets, one after another. */
  function InOrder(sent: seq<Packet>): seq<Fragment> {
    if sent == [] then [] else InOrder(sent[..|sent| - 1]) + Pieces(sent[|sent| - 1])
  }

  lemma {:induction false} InOrderIsAll(sent: seq<Packet>)
    ensures multiset(InOrder(sent)) == AllPieces(sent)
  {
    if sent == [] {
    } else {
      InOrderIsAll(sent[..|sent| - 1]);
    }
  }

  /** A packet has one opening piece. */
  lemma {:induction false} OneOpening(p: Packet, key: string, r: nat)
    requires 1 <= r <= |p.parts|
    ensures Count(Pieces(p)[..r], Opening(key)) == if Key(p.event.id) == key then 1 else 0
  {
    var fs := Pieces(p);
    assert fs[..r][..r - 1] == fs[..r - 1];
    if r == 1 {
      assert fs[..0] == [];
    } else {
      OneOpening(p, key, r - 1);
    }
  }

  lemma OneMoreOpening(sent: seq<Packet>, p: Packet, key: string)
    requires |p.parts| >= 1
    ensures Count(InOrder(sent + [p]), Opening(key)) - Count(InOrder(sent), Opening(key))
         == Count(Wholes(sent + [p]), Keyed(key)) - Count(Wholes(sent), Keyed(key))
  {
    assert (sent + [p])[..|sent|] == sent;
    CountConcat(InOrder(sent), Pieces(p), Opening(key));
    OneOpening(p, key, |p.parts|);
    assert Pieces(p)[..|p.parts|] == Pieces(p);
    WholesGrow(sent, p);
    CountOne(Wholes(sent), Whole(p.event), Keyed(key));
  }

  /** There are as many opening pieces as events, for every key. */
  lemma {:induction false} OpeningsAreEvents(sent: seq<Packet>, key: string)
    requires AllWellCut(sent)
    ensures Count(InOrder(sent), Opening(key)) == Count(Wholes(sent), Keyed(key))
  {
    if sent == [] {
    } else {
      var init, p := sent[..|sent| - 1], sent[|sent| - 1];
      OpeningsAreEvents(init, key);
      OneMoreOpening(init, p, key);
      assert sent == init + [p];
    }
  }

  lemma {:induction false} AllPiecesHave(sent: seq<Packet>, i: nat)
    requires i < |sent|
    ensures multiset(Pieces(sent[i])) <= AllPieces(sent)
  {
    if i == |sent| - 1 {
    } else {
      AllPiecesHave(sent[..|sent| - 1], i);
    }
  }

  lemma {:induction false} AllPiecesHaveBoth(sent: seq<Packet>, i: nat, j: nat)
    requires i < j < |sent|
    ensures multiset(Pieces(sent[i])) + multiset(Pieces(sent[j])) <= AllPieces(sent)
  {
    if j == |sent| - 1 {
      AllPiecesHave(sent[..j], i);
    } else {
      AllPiecesHaveBoth(sent[..|sent| - 1], i, j);
    }
  }

  /** The elements of a multiset in some order. */
  lemma {:induction false} Listed(m: multiset<Fragment>) returns (s: seq<Fragment>)
    ensures multiset(s) == m
    decreases |m|
  {
    if m == multiset{} {
      s := [];
    } else {
      var f :| f in m;
      s := Listed(m - multiset{f});
      s := s + [f];
    }
  }

  lemma AllHaveFirsts(sent: seq<Packet>, i: nat, j: nat)
    requires AllWellCut(sent) && i < j < |sent|
    ensures multiset{Piece(sent[i], 0), Piece(sent[j], 0)} <= AllPieces(sent)
  {
    var p, q := multiset(Pieces(sent[i])), multiset(Pieces(sent[j]));
    AllPiecesHaveBoth(sent, i, j);
    assert Pieces(sent[i])[0] in p && Pieces(sent[j])[0] in q;
    assert multiset{Piece(sent[i], 0)} <= p && multiset{Piece(sent[j], 0)} <= q;
  }

  /** Some order of arrivals begins with the first pieces of two given packets. */
  lemma BeginningWith(sent: seq<Packet>, i: nat, j: nat) returns (rest: seq<Fragment>)
    requires AllWellCut(sent) && i < j < |sent|
    ensures multiset([Piece(sent[i], 0), Piece(sent[j], 0)] + rest) == AllPieces(sent)
  {
    var firsts := [Piece(sent[i], 0), Piece(sent[j], 0)];
    AllHaveFirsts(sent, i, j);
    rest := Listed(AllPieces(sent) - multiset(firsts));
    assert multiset(firsts + rest) == multiset(firsts) + multiset(rest);
  }

  /** An order of arrivals that wastes an opening piece does not restore all events. */
  lemma WastedIsNotRestored(sent: seq<Packet>, arrivals: seq<Fragment>, key: string)
    requires AllWellCut(sent) && multiset(arrivals) == AllPieces(sent)
    requires Count(Feed(map[], arrivals).1, Keyed(key)) < Count(arrivals, Opening(key))
    ensures !Restored(sent, arrivals)
  {
    InOrderIsAll(sent);
    CountPermutes(arrivals, InOrder(sent), Opening(key));
    OpeningsAreEvents(sent, key);
    if Restored(sent, arrivals) {
      CountPermutes(Feed(map[], arrivals).1, Wholes(sent), Keyed(key));
    }
  }

  /** If two events with several parts share a key, some order of arrivals does not restore all events. */
  lemma SharedKeyFails(sent: seq<Packet>, i: nat, j: nat) returns (arrivals: seq<Fragment>)
    requires AllWellCut(sent) && i < j < |sent| && MultiPart(sent[i]) && MultiPart(sent[j])
    requires Key(sent[i].event.id) == Key(sent[j].event.id)
    ensures multiset(arrivals) == AllPieces(sent) && !Restored(sent, arrivals)
  {
    var rest := BeginningWith(sent, i, j);
    arrivals := [Piece(sent[i], 0), Piece(sent[j], 0)] + rest;
    WastedOpening(sent[i], sent[j], rest);
    WastedIsNotRestored(sent, arrivals, Key(sent[i].event.id));
  }

  /**
   * Every order of arrivals restores all events exactly when no two events
   * with several parts share a key.
   */
  lemma RestoredIff(sent: seq<Packet>)
    requires AllWellCut(sent)
    ensures (forall arrivals | multiset(arrivals) == AllPieces(sent) :: Restored(sent, arrivals)) <==>
            MultiPartDistinct(sent)
  {
    if MultiPartDistinct(sent) {
      forall arrivals | multiset(arrivals) == AllPieces(sent) ensures Restored(sent, arrivals) {
        MultiPartsSuffice(sent, arrivals);
      }
    } else {
      var i, j :| 0 <= i < j < |sent| && MultiPart(sent[i]) && MultiPart(sent[j])
                  && Key(sent[i].event.id) == Key(sent[j].event.id);
      var arrivals := SharedKeyFails(sent, i, j);
    }
  }
}
