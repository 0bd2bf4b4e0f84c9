/** The mutable objects behind `Reassembly`: fragments, assemblies and the pool. */
module AssemblyPools {
  import opened Wire
  import R = Reassembly

  /** A parsed message. Joining appends to the data of the first one in place. */
  class FragmentedNotification {
    var notification: Notification
    const part: nat
    const count: nat

    constructor (f: Fragment)
      ensures Value() == f
    {
      notification, part, count := f.notification, f.part, f.count;
    }

    function Value(): Fragment
      reads this
    {
      Fragment(notification, part, count)
    }
  }

  class Assembly {
    var receivedParts: nat
    const store: array<FragmentedNotification?>
    const birthTime: int

    ghost var slots: seq<Option<Fragment>>
    ghost var repr: set<object>

    ghost predicate Valid()
      reads this, repr
      ensures Valid() ==> this in repr && store in repr
    {
      && this in repr && store in repr
      && |slots| == store.Length
      && forall i {:trigger SlotValid(i)} | 0 <= i < store.Length :: SlotValid(i)
    }

    ghost predicate SlotValid(i: int)
      requires 0 <= i < store.Length == |slots|
      reads this, store, repr
    {
      if store[i] == null then slots[i] == None
      else store[i] in repr && store[i].part == i && slots[i] == Some(store[i].Value())
    }

    ghost function State(): R.Assembly
      reads this
    {
      R.Assembly(slots, receivedParts, birthTime)
    }

    constructor (fragment: FragmentedNotification, now: int)
      requires fragment.part < fragment.count
      ensures Valid() && repr == {this, store, fragment} && fresh(store)
      ensures State() == R.Insert(R.Assembly(R.Empty(fragment.count), 0, now), fragment.Value())
    {
      store := new FragmentedNotification?[fragment.count](_ => null);
      receivedParts, birthTime := 0, now;
      slots := R.Empty(fragment.count);
      new;
      repr := {this, store};
      var _ := Add(fragment);
    }

    method Add(fragment: FragmentedNotification) returns (r: Result<bool>)
      requires Valid() && fragment !in repr
      requires fragment.part < store.Length
      modifies this, store
      ensures Valid()
      ensures old(slots)[fragment.part].Some? ==>
                r == Err(ProtocolError) && State() == old(State()) && repr == old(repr)
      ensures old(slots)[fragment.part].None? ==>
                && State() == R.Insert(old(State()), fragment.Value())
                && repr == old(repr) + {fragment}
                && r == Ok(receivedParts == |slots|)
    {
      assert SlotValid(fragment.part);
      if store[fragment.part] != null {
        return Err(ProtocolError);
      }
      store[fragment.part] := fragment;
      receivedParts := receivedParts + 1;
      slots := slots[fragment.part := Some(fragment.Value())];
      repr := repr + {fragment};
      forall i | 0 <= i < store.Length ensures SlotValid(i) {
        assert i != fragment.part ==> old(SlotValid(i));
      }
      return Ok(IsComplete());
    }

    predicate IsComplete()
      reads this
    {
      receivedParts == store.Length
    }

    predicate IsOlderThan(maxAge: uint32, now: int) {
      R.Age(birthTime, now) > maxAge
    }

    /** Returns the object of slot 0, whose data now is that of all slots. */
    method GetCompleteNotification() returns (n: FragmentedNotification)
      requires Valid() && store.Length > 0
      requires forall i | 0 <= i < |slots| :: slots[i].Some?
      modifies repr
      ensures Valid() && repr == old(repr)
      ensures n == store[0] && store[..] == old(store[..])
      ensures n.notification == R.Join(old(State()))
      ensures State() == R.AfterJoin(old(State()))
    {
      assert SlotValid(0);
      n := store[0];
      ghost var datas := R.Datas(slots);
      var i := 1;
      assert datas[..1][..0] == [] && datas[..1][0] == n.notification.data;
      while i < store.Length
        invariant 1 <= i <= store.Length
        invariant n == store[0] && store[..] == old(store[..])
        invariant slots == old(slots) && receivedParts == old(receivedParts) && repr == old(repr)
        invariant n.notification == old(n.notification).(data := Flatten(datas[..i]))
        modifies n
      {
        assert old(SlotValid(i));
        assert store[i].part == i && store[0].part == 0;
        n.notification := n.notification.(data := n.notification.data + store[i].notification.data);
        assert datas[..i + 1][..i] == datas[..i];
        i := i + 1;
      }
      assert datas[..i] == datas;
      slots := slots[0 := Some(n.Value())];
      forall j | 0 <= j < store.Length ensures SlotValid(j) {
        assert old(SlotValid(j));
      }
    }
  }

  /** How the outcome of `AssemblyPool::add` shows: a notification, nothing, or an exception. */
  function AsResult(o: R.Outcome): Result<Option<Notification>> {
    match o
    case Pending => Ok(None)
    case Delivered(n) => Ok(Some(n))
    case Duplicate => Err(ProtocolError)
    case Malformed => Err(InvalidArgument)
  }

  class AssemblyPool {
    var pool: map<string, Assembly>
    const pruningAgeS: uint32
    const pruningIntervalMs: uint32

    ghost var repr: set<object>

    /** The assembly of this key is well-formed and part of the representation. */
    ghost predicate Owned(k: string)
      reads this, repr
    {
      && k in pool && pool[k] in repr && pool[k].repr <= repr && this !in pool[k].repr
      && pool[k].Valid()
    }

    ghost predicate Apart(k: string, l: string)
      reads this, repr
    {
      k in pool && l in pool && pool[k] in repr && pool[l] in repr && (k != l ==> pool[k].repr !! pool[l].repr)
    }

    ghost predicate Shape()
      reads this, repr
      ensures Shape() ==> this in repr
    {
      && this in repr
      && (forall k {:trigger Owned(k)} | k in pool :: Owned(k))
      && (forall k, l {:trigger Apart(k, l)} | k in pool && l in pool :: Apart(k, l))
    }

    ghost function State(): R.Pool
      requires Shape()
      reads this, repr
    {
      map k | k in pool :: assert Owned(k); pool[k].State()
    }

    ghost predicate Valid()
      reads this, repr
      ensures Valid() ==> this in repr
    {
      Shape() && R.PoolInv(State())
    }

    constructor (ageS: uint32, intervalMs: uint32)
      ensures Valid() && fresh(repr) && State() == map[]
      ensures pruningAgeS == ageS && pruningIntervalMs == intervalMs
    {
      pool, pruningAgeS, pruningIntervalMs := map[], ageS, intervalMs;
      repr := {this};
    }

    /** The constructor of the source, which throws `std::domain_error` for zeros. */
    static method Create(ageS: uint32, intervalMs: uint32) returns (r: Result<AssemblyPool>)
      ensures ageS == 0 || intervalMs == 0 ==> r == Err(InvalidArgument)
      ensures ageS > 0 && intervalMs > 0 ==>
                && r.Ok? && fresh(r.value.repr) && r.value.Valid() && r.value.State() == map[]
                && r.value.pruningAgeS == ageS && r.value.pruningIntervalMs == intervalMs
    {
      if ageS == 0 || intervalMs == 0 {
        return Err(InvalidArgument);
      }
      var p := new AssemblyPool(ageS, intervalMs);
      return Ok(p);
    }

    method Add(fragment: FragmentedNotification, now: int) returns (r: Result<Option<Notification>>)
      requires Valid() && fragment !in repr
      requires R.Fits(State(), fragment.Value())
      modifies repr, fragment
      ensures Valid() && fresh(repr - old(repr) - {fragment})
      ensures State() == R.PoolAdd(old(State()), old(fragment.Value()), now).0
      ensures r == AsResult(R.PoolAdd(old(State()), old(fragment.Value()), now).1)
    {
      R.PoolAddKeepsInv(State(), fragment.Value(), now);
      var key := MakeKey(fragment.notification.id);
      r := PlaceAndFinish(key, fragment, now);
    }

    method PlaceAndFinish(key: string, fragment: FragmentedNotification, now: int)
      returns (r: Result<Option<Notification>>)
      requires Valid() && fragment !in repr && key == KeyOf(fragment.Value())
      requires R.Fits(State(), fragment.Value())
      modifies repr, fragment
      ensures Shape() && fresh(repr - old(repr) - {fragment})
      ensures State() == R.PoolAdd(old(State()), old(fragment.Value()), now).0
      ensures r == AsResult(R.PoolAdd(old(State()), old(fragment.Value()), now).1)
    {
      ghost var before, f := State(), fragment.Value();
      var placed := Place(key, fragment, now);
      if placed.Err? {
        return Err(placed.error);
      }
      R.PoolAddSteps(before, f, now);
      assert Owned(key) && pool[key].State() == State()[key];
      r := Finish(key);
    }

    /** Puts the fragment into the assembly of its key, which is created if necessary. */
    method Place(key: string, fragment: FragmentedNotification, now: int) returns (r: Result<bool>)
      requires Shape() && fragment !in repr && key == KeyOf(fragment.Value())
      requires R.Fits(State(), fragment.Value())
      modifies repr
      ensures Shape() && fragment.Value() == old(fragment.Value())
      ensures fresh(repr - old(repr) - {fragment})
      ensures var s, f := old(State()), fragment.Value();
              if R.Occupied(s, f) then r == Err(ProtocolError) && State() == s
              else r.Ok? && key in pool && State() == s[key := R.Grown(s, f, now)]
    {
      if key in pool {
        assert Owned(key) && State()[key] == pool[key].State();
        r := Extend(key, fragment);
        assert State() == old(State())[key := pool[key].State()];
      } else {
        Begin(key, fragment, now);
        assert key in State();
        r := Ok(false);
      }
    }

    /** Appends the four bytes of the sequence number to the sender id. */
    static method MakeKey(id: EventId) returns (key: string)
      ensures key == Key(id)
      ensures |key| == |id.sender| + 4 && id.sender <= key
      ensures forall i | 0 <= i < 4 ::
                key[|id.sender| + i] as int == id.seqNo / [1, 0x100, 0x10000, 0x1000000][i] % 0x100
    {
      key := id.sender;
      key := key + [(id.seqNo % 0x100) as char];
      key := key + [(id.seqNo / 0x100 % 0x100) as char];
      key := key + [(id.seqNo / 0x10000 % 0x100) as char];
      key := key + [(id.seqNo / 0x1000000 % 0x100) as char];
    }

    /** Pushes the fragment to the existing assembly of its key. */
    method Extend(key: string, fragment: FragmentedNotification) returns (r: Result<bool>)
      requires Shape() && fragment !in repr && key in pool
      requires Owned(key) && fragment.part < |pool[key].slots|
      modifies pool[key], pool[key].store, this`repr
      ensures Shape() && fragment.Value() == old(fragment.Value()) && repr == old(repr) + {fragment}
      ensures pool == old(pool)
      ensures forall k | k in pool && k != key :: pool[k].State() == old(pool[k].State())
      ensures var a := old(pool[key].State());
              if a.slots[fragment.part].Some? then r == Err(ProtocolError) && pool[key].State() == a
              else r.Ok? && pool[key].State() == R.Insert(a, fragment.Value())
    {
      r := pool[key].Add(fragment);
      repr := repr + {fragment};
      assert Owned(key);
      forall k | k in pool && k != key
        ensures Owned(k)
        ensures pool[k].State() == old(pool[k].State()) && pool[k].repr == old(pool[k].repr)
      {
        assert old(Owned(k)) && old(Apart(k, key));
      }
      forall k, l | k in pool && l in pool ensures Apart(k, l) {
        assert old(Owned(k)) && old(Owned(l)) && old(Apart(k, l));
      }
    }

    /** Creates an assembly for a key that has none. */
    method Begin(key: string, fragment: FragmentedNotification, now: int)
      requires Shape() && fragment !in repr && key !in pool
      requires fragment.part < fragment.count
      modifies this
      ensures Shape() && fragment.Value() == old(fragment.Value())
      ensures fresh(repr - old(repr) - {fragment})
      ensures State() == old(State())[key := R.Insert(R.Assembly(R.Empty(fragment.count), 0, now), fragment.Value())]
    {
      ghost var before := State();
      var assembly := new Assembly(fragment, now);
      assert assembly.repr !! old(repr);
      pool := pool[key := assembly];
      repr := repr + assembly.repr;
      forall k | k in old(pool)
        ensures Owned(k) && pool[k].repr !! assembly.repr
        ensures pool[k].State() == before[k] && pool[k].repr == old(pool[k].repr)
      {
        assert old(Owned(k));
      }
      assert Owned(key);
      forall k, l | k in pool && l in pool ensures Apart(k, l) {
        if k != key && l != key {
          assert old(Apart(k, l));
        }
      }
    }

    /** Joins and erases the assembly if it is complete. */
    method Finish(key: string) returns (r: Result<Option<Notification>>)
      requires Shape() && key in pool && Owned(key)
      requires 0 < pool[key].receivedParts == |R.Values(pool[key].slots)|
      modifies repr
      ensures Shape() && repr == old(repr)
      ensures var a := old(State())[key];
              if a.received == |a.slots|
              then |a.slots| > 0 && r == Ok(Some(R.Join(a))) && State() == old(State()) - {key}
              else r == Ok(None) && State() == old(State())
    {
      var assembly := pool[key];
      if !assembly.IsComplete() {
        return Ok(None);
      }
      ghost var before := State();
      R.ValuesBound(assembly.slots);
      var joined := assembly.GetCompleteNotification();
      pool := pool - {key};
      forall k | k in pool
        ensures Owned(k)
        ensures pool[k].State() == before[k] && pool[k].repr == old(pool[k].repr)
      {
        assert old(Owned(k)) && old(Apart(k, key));
      }
      forall k, l | k in pool && l in pool ensures Apart(k, l) {
        assert old(Owned(k)) && old(Owned(l)) && old(Apart(k, l));
      }
      return Ok(Some(joined.notification));
    }

    /** `PruningTask::execute` under the lock of the pool. */
    method Prune(now: int)
      requires Valid()
      modifies this`pool
      ensures Valid() && repr == old(repr)
      ensures State() == R.Unexpired(old(State()), pruningAgeS, now)
    {
      EraseOld(now);
      Survivors();
    }

    /** Erases old assemblies while walking over the pool. */
    method EraseOld(now: int)
      modifies this`pool
      ensures pool == map k | k in old(pool) && !old(pool)[k].IsOlderThan(pruningAgeS, now) :: old(pool)[k]
    {
      ghost var before := pool;
      var todo := pool.Keys;
      while todo != {}
        invariant todo <= pool.Keys <= before.Keys
        invariant forall k | k in pool :: pool[k] == before[k]
        invariant forall k | k in before && k !in todo ::
                    k in pool <==> !before[k].IsOlderThan(pruningAgeS, now)
        decreases |todo|
      {
        var k :| k in todo;
        todo := todo - {k};
        if pool[k].IsOlderThan(pruningAgeS, now) {
          pool := pool - {k};
        }
      }
    }

    /** Erasing assemblies leaves the others as they were. */
    twostate lemma Survivors()
      requires old(Valid()) && repr == old(repr) && pool.Keys <= old(pool).Keys
      requires forall k | k in pool :: pool[k] == old(pool[k])
      requires forall o | o in repr && o != this :: unchanged(o)
      ensures Valid() && forall k | k in pool :: State()[k] == old(State())[k]
    {
      forall k | k in pool
        ensures Owned(k) && R.Sound(k, pool[k].State()) && pool[k].State() == old(State())[k]
      {
        assert old(Owned(k)) && R.Sound(k, old(State())[k]);
      }
      forall k, l | k in pool && l in pool ensures Apart(k, l) {
        assert old(Apart(k, l));
      }
    }
  }
}
