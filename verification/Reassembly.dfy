/** What `Assembly`, `AssemblyPool` and `maybeJoinFragments` do to values. */
module Reassembly {
  import opened Wire

  datatype Assembly = Assembly(slots: seq<Option<Fragment>>, received: nat, birth: int)

  type Pool = map<string, Assembly>

  /** The fragments an assembly holds, in slot order. */
  function Values(slots: seq<Option<Fragment>>): seq<Fragment> {
    if slots == [] then []
    else
      var last := slots[|slots| - 1];
      Values(slots[..|slots| - 1]) + (if last.Some? then [last.value] else [])
  }

  function DataOf(slot: Option<Fragment>): string {
    if slot.Some? then slot.value.notification.data else ""
  }

  function Datas(slots: seq<Option<Fragment>>): seq<string> {
    seq(|slots|, i requires 0 <= i < |slots| => DataOf(slots[i]))
  }

  /** The metadata of slot 0 with the data of all slots in order. */
  function Join(a: Assembly): Notification
    requires |a.slots| > 0
  {
    var record := if a.slots[0].Some? then a.slots[0].value.notification
                  else Notification(EventId("", 0), NO_HEADER, "");
    record.(data := Flatten(Datas(a.slots)))
  }

  function Empty(count: nat): (s: seq<Option<Fragment>>)
    ensures |s| == count && forall i | 0 <= i < count :: s[i] == None
  {
    seq(count, _ => None)
  }

  function Insert(a: Assembly, f: Fragment): Assembly
    requires f.part < |a.slots|
  {
    Assembly(a.slots[f.part := Some(f)], a.received + 1, a.birth)
  }

  /** The slots that an arriving fragment finds, in the assembly of its key or a new one. */
  function Room(pool: Pool, f: Fragment): nat {
    if KeyOf(f) in pool then |pool[KeyOf(f)].slots| else f.count
  }

  /** The slot of an arriving fragment exists; otherwise what the source does is undefined. */
  predicate Fits(pool: Pool, f: Fragment) {
    f.part < Room(pool, f)
  }

  /** The assembly of a fragment after the fragment has been put into it. */
  function Grown(pool: Pool, f: Fragment, now: int): (a: Assembly)
    requires Fits(pool, f)
    ensures |a.slots| == Room(pool, f)
  {
    Insert(if KeyOf(f) in pool then pool[KeyOf(f)] else Assembly(Empty(f.count), 0, now), f)
  }

  predicate Occupied(pool: Pool, f: Fragment) {
    KeyOf(f) in pool && f.part < |pool[KeyOf(f)].slots| && pool[KeyOf(f)].slots[f.part].Some?
  }

  datatype Outcome = Pending | Delivered(notification: Notification) | Duplicate | Malformed

  function PoolAdd(pool: Pool, f: Fragment, now: int): (Pool, Outcome)
    requires Fits(pool, f)
  {
    if Occupied(pool, f) then (pool, Duplicate)
    else
      var a := Grown(pool, f, now);
      if a.received == |a.slots| then (pool - {KeyOf(f)}, Delivered(Join(a)))
      else (pool[KeyOf(f) := a], Pending)
  }

  /** Single-part notifications bypass the pool. */
  function Receive(pool: Pool, f: Fragment, now: int): (Pool, Outcome) {
    if f.count <= 1 then (pool, Delivered(f.notification))
    else if !Fits(pool, f) then (pool, Malformed)
    else PoolAdd(pool, f, now)
  }

  // ---------------------------------------------------------------- age

  const MICROS_PER_SECOND := 1_000_000

  /** `time_duration::total_seconds`, which truncates towards zero. */
  function TotalSeconds(micros: int): int {
    if micros >= 0 then micros / MICROS_PER_SECOND else -(-micros / MICROS_PER_SECOND)
  }

  /** `Assembly::age`: the number of seconds, converted to `unsigned int`. */
  function Age(birth: int, now: int): uint32 {
    TotalSeconds(now - birth) % TWO32
  }

  predicate Expired(a: Assembly, maxAge: uint32, now: int) {
    Age(a.birth, now) > maxAge
  }

  /** The pool without the assemblies that are too old. */
  ghost function Unexpired(pool: Pool, maxAge: uint32, now: int): Pool {
    map k | k in pool && !Expired(pool[k], maxAge, now) :: pool[k]
  }

  // ---------------------------------------------------------------- invariant of a pool

  ghost predicate Slotted(slots: seq<Option<Fragment>>, key: string) {
    forall j | 0 <= j < |slots| && slots[j].Some? ::
      slots[j].value.part == j && KeyOf(slots[j].value) == key
  }

  ghost predicate Sound(key: string, a: Assembly) {
    && 0 < a.received < |a.slots|
    && a.received == |Values(a.slots)|
    && Slotted(a.slots, key)
  }

  /** Pooled assemblies are non-empty, incomplete, and hold only parts with their key. */
  ghost predicate PoolInv(pool: Pool) {
    forall k | k in pool :: Sound(k, pool[k])
  }

  /** Pooled assemblies have as many slots as their parts say, which the source asserts. */
  ghost predicate Counted(pool: Pool) {
    forall k, j | k in pool && 0 <= j < |pool[k].slots| && pool[k].slots[j].Some? ::
      pool[k].slots[j].value.count == |pool[k].slots|
  }

  /** The fragment is stored in the pool. */
  predicate Held(pool: Pool, f: Fragment) {
    KeyOf(f) in pool && f.part < |pool[KeyOf(f)].slots| && pool[KeyOf(f)].slots[f.part] == Some(f)
  }

  lemma {:induction false} ValuesUpdate(slots: seq<Option<Fragment>>, i: nat, f: Fragment)
    requires i < |slots| && slots[i].None?
    ensures multiset(Values(slots[i := Some(f)])) == multiset(Values(slots)) + multiset{f}
  {
    var n := |slots| - 1;
    var t, u := slots[..n], slots[i := Some(f)];
    if i < n {
      ValuesUpdate(t, i, f);
      assert u[..n] == t[i := Some(f)] && u[n] == slots[n];
      assert Values(u) == Values(t[i := Some(f)]) + (if u[n].Some? then [u[n].value] else []);
    } else {
      assert u[..n] == t;
      assert Values(u) == Values(t) + [f];
    }
  }

  lemma ValuesGrow(slots: seq<Option<Fragment>>, i: nat, f: Fragment)
    requires i < |slots| && slots[i].None?
    ensures |Values(slots[i := Some(f)])| == |Values(slots)| + 1
  {
    ValuesUpdate(slots, i, f);
    assert |multiset(Values(slots[i := Some(f)]))| == |multiset(Values(slots)) + multiset{f}|;
  }

  lemma {:induction false} ValuesBound(slots: seq<Option<Fragment>>)
    ensures |Values(slots)| <= |slots|
    ensures |Values(slots)| == |slots| <==> forall j | 0 <= j < |slots| :: slots[j].Some?
  {
    if slots == [] {
    } else {
      var n := |slots| - 1;
      ValuesBound(slots[..n]);
      assert forall j | 0 <= j < n :: slots[..n][j] == slots[j];
    }
  }

  lemma {:induction false} ValuesEmpty(count: nat)
    ensures Values(Empty(count)) == []
  {
    if count == 0 {
    } else {
      assert Empty(count)[..count - 1] == Empty(count - 1);
      ValuesEmpty(count - 1);
    }
  }

  /** Each fragment is stored at most once, in the slot of its part number. */
  lemma {:induction false} ValuesCount(slots: seq<Option<Fragment>>, f: Fragment)
    requires forall j | 0 <= j < |slots| && slots[j].Some? :: slots[j].value.part == j
    ensures multiset(Values(slots))[f] == if f.part < |slots| && slots[f.part] == Some(f) then 1 else 0
  {
    if slots == [] {
    } else {
      var n := |slots| - 1;
      var t := slots[..n];
      assert forall j | 0 <= j < n :: t[j] == slots[j];
      ValuesCount(t, f);
      var tail := if slots[n].Some? then [slots[n].value] else [];
      assert Values(slots) == Values(t) + tail;
      assert multiset(tail)[f] == if slots[n] == Some(f) then 1 else 0;
    }
  }

  lemma GrownCount(pool: Pool, f: Fragment, now: int)
    requires PoolInv(pool) && Fits(pool, f) && !Occupied(pool, f)
    ensures var a := Grown(pool, f, now);
            a.received >= 1 && a.received == |Values(a.slots)| && Slotted(a.slots, KeyOf(f))
  {
    if KeyOf(f) in pool {
      ValuesGrow(pool[KeyOf(f)].slots, f.part, f);
    } else {
      ValuesEmpty(f.count);
      ValuesGrow(Empty(f.count), f.part, f);
    }
  }

  /** `AssemblyPool::add` keeps the invariant, and completes exactly when every slot is filled. */
  lemma PoolAddKeepsInv(pool: Pool, f: Fragment, now: int)
    requires PoolInv(pool) && Fits(pool, f)
    ensures PoolInv(PoolAdd(pool, f, now).0)
    ensures PoolAdd(pool, f, now).1.Delivered? <==>
            !Occupied(pool, f) && forall j | 0 <= j < Room(pool, f) :: Grown(pool, f, now).slots[j].Some?
  {
    if !Occupied(pool, f) {
      GrownCount(pool, f, now);
      ValuesBound(Grown(pool, f, now).slots);
    }
  }

  /** `add` in two steps: the assembly is put into the pool, then taken out if complete. */
  lemma PoolAddSteps(pool: Pool, f: Fragment, now: int)
    requires PoolInv(pool) && Fits(pool, f) && !Occupied(pool, f)
    ensures var a := Grown(pool, f, now); var put := pool[KeyOf(f) := a];
            && 0 < a.received == |Values(a.slots)|
            && PoolAdd(pool, f, now) == if a.received == |a.slots| then (put - {KeyOf(f)}, Delivered(Join(a)))
                                        else (put, Pending)
  {
    GrownCount(pool, f, now);
    assert pool[KeyOf(f) := Grown(pool, f, now)] - {KeyOf(f)} == pool - {KeyOf(f)};
  }

  // ---------------------------------------------------------------- joining

  /** The pieces of a packet, each in its slot. */
  function Full(p: Packet): seq<Option<Fragment>> {
    seq(|p.parts|, j requires 0 <= j < |p.parts| => Some(Piece(p, j)))
  }

  /** Whatever the arrival order was, joining the pieces of a packet restores its event. */
  lemma JoinRestores(p: Packet, received: nat, birth: int)
    requires WellCut(p)
    ensures Join(Assembly(Full(p), received, birth)) == Whole(p.event)
  {
    assert Datas(Full(p)) == p.parts;
  }

  // ---------------------------------------------------------------- arrivals in part order

  /** Fragments in part order that claim to be the parts of one event. */
  predicate Series(fs: seq<Fragment>, key: string) {
    forall j | 0 <= j < |fs| :: fs[j].part == j && fs[j].count == |fs| && KeyOf(fs[j]) == key
  }

  /** The metadata of the first fragment with the data of all of them. */
  function JoinOf(fs: seq<Fragment>): Notification
    requires |fs| > 0
  {
    fs[0].notification.(data := Flatten(seq(|fs|, j requires 0 <= j < |fs| => fs[j].notification.data)))
  }

  function Filled(fs: seq<Fragment>, r: nat): seq<Option<Fragment>> {
    seq(|fs|, j requires 0 <= j < |fs| => if j < r then Some(fs[j]) else None)
  }

  /** Of these fragments, the pool holds the first r and nothing else under their key. */
  predicate Holds(pool: Pool, key: string, fs: seq<Fragment>, r: nat) {
    if r == 0 then key !in pool
    else key in pool && pool[key].slots == Filled(fs, r) && pool[key].received == r
  }

  /** The next fragment in part order is kept, or completes the assembly; a single one bypasses the pool. */
  lemma ReceiveInOrder(pool: Pool, fs: seq<Fragment>, key: string, r: nat, now: int)
    requires Series(fs, key) && r < |fs| && Holds(pool, key, fs, r)
    ensures var (q, o) := Receive(pool, fs[r], now);
            if r + 1 == |fs| then q == pool - {key} && o == Delivered(JoinOf(fs))
            else o == Pending && Holds(q, key, fs, r + 1) && q == pool[key := q[key]]
  {
    var datas := seq(|fs|, j requires 0 <= j < |fs| => fs[j].notification.data);
    if |fs| == 1 {
      assert datas[..0] == [] && Flatten(datas) == Flatten([]) + datas[0];
    } else {
      assert Fits(pool, fs[r]) && !Occupied(pool, fs[r]);
      var a := Grown(pool, fs[r], now);
      assert a.slots == Filled(fs, r + 1);
      if r + 1 == |fs| {
        assert Datas(a.slots) == datas;
      }
    }
  }

  /** The pieces of a packet are such a series, and joining them gives its event. */
  lemma PiecesAreSeries(p: Packet)
    requires WellCut(p)
    ensures Series(Pieces(p), Key(p.event.id)) && JoinOf(Pieces(p)) == Whole(p.event)
  {
    var fs := Pieces(p);
    assert seq(|fs|, j requires 0 <= j < |fs| => fs[j].notification.data) == p.parts;
  }

  // ---------------------------------------------------------------- joining twice

  /** The state after `getCompleteNotification` has appended to the data of slot 0. */
  function AfterJoin(a: Assembly): Assembly
    requires |a.slots| > 0 && a.slots[0].Some?
  {
    a.(slots := a.slots[0 := Some(a.slots[0].value.(notification := Join(a)))])
  }

  /**
   * Joining is destructive: a second call returns the parts behind slot 0
   * twice, so it agrees with the first call exactly when they are all empty.
   */
  lemma SecondJoinDiffers(a: Assembly)
    requires |a.slots| > 0 && a.slots[0].Some?
    ensures Join(AfterJoin(a)).data == Join(a).data + Flatten(Datas(a.slots)[1..])
    ensures Join(AfterJoin(a)) == Join(a) <==> Flatten(Datas(a.slots)[1..]) == ""
  {
    var d, e := Datas(a.slots), Datas(AfterJoin(a).slots);
    assert e == [Join(a).data] + d[1..];
    FlattenConcat([Join(a).data], d[1..]);
    assert Flatten([Join(a).data]) == Join(a).data by {
      assert [Join(a).data][..0] == [];
    }
  }
}
