/** The connectors of a bus: cutting and sending events, and registering for them. */
module Connectors {
  import opened Wire
  import opened Fragmentation
  import opened GroupNames
  import opened Membership
  import opened Connection
  import opened Bus
  import Routing

  /** The fragments of some parts of an event, each claiming to be the only one. */
  function Optimistic(e: Event, parts: seq<string>): seq<Fragment> {
    seq(|parts|, i requires 0 <= i < |parts| => Piece(Packet(e, parts), i).(count := 1))
  }

  lemma OptimisticGrows(e: Event, parts: seq<string>, part: string)
    ensures var header := if parts == [] then e.header else NO_HEADER;
            Optimistic(e, parts + [part])
            == Optimistic(e, parts) + [Wire.Fragment(Notification(e.id, header, part), |parts|, 1)]
  {
  }

  class OutConnector {
    const bus: BusImpl
    const groupNameCache: GroupNameCache
    const maxFragmentSize: uint32
    /** The encoded size of a notification record, from the Protocol Buffers library. */
    const byteSize: Notification -> uint32

    ghost predicate Valid()
      reads this, groupNameCache
    {
      groupNameCache.Valid() && groupNameCache.md5 == bus.md5
    }

    constructor (bus: BusImpl, maxFragmentSize: uint32, byteSize: Notification -> uint32)
      ensures Valid() && fresh(groupNameCache) && this.bus == bus
      ensures this.maxFragmentSize == maxFragmentSize && this.byteSize == byteSize
    {
      this.bus, this.maxFragmentSize, this.byteSize := bus, maxFragmentSize, byteSize;
      groupNameCache := new GroupNameCache(bus.md5);
    }

    function BudgetOf(e: Event): Budget {
      Budget(maxFragmentSize, byteSize(Notification(e.id, e.header, "")),
             byteSize(Notification(e.id, NO_HEADER, "")))
    }

    /** What the loop makes of the payload of an event. */
    function CutOf(e: Event, memory: uint32): Result<seq<string>> {
      CutWithin(e.payload, BudgetOf(e), memory)
    }

    /** The state of the loop after some fragments, within memory. */
    ghost predicate Looping(e: Event, memory: uint32, fragment: uint32, offset: uint32, fragments: seq<Wire.Fragment>) {
      var b, len := BudgetOf(e), |e.payload|;
      && fragment <= memory
      && (fragment > 0 ==> !b.TooBig(0))
      && (fragment > 1 ==> !b.TooBig(1) && len > b.Room().first)
      && (forall i: nat | 1 <= i < fragment :: b.Room().Offset32(i) < len)
      && offset == b.Room().Offset32(fragment)
      && fragments == Optimistic(e, Emitted(e.payload, b.Room(), fragment))
    }

    lemma LoopFails(e: Event, memory: uint32, fragment: uint32, offset: uint32, fragments: seq<Wire.Fragment>)
      requires Looping(e, memory, fragment, offset, fragments) && (fragment == 0 || offset < |e.payload|)
      ensures fragment == memory ==> CutOf(e, memory) == Err(OutOfMemory)
      ensures fragment < memory && BudgetOf(e).TooBig(fragment) ==> CutOf(e, memory) == Err(ProtocolError)
    {
      var c := BudgetOf(e).Room();
      assert c.Offset32(1) == Add32(c.Offset32(0), c.At(0));
      assert fragment > 0 ==> c.first < |e.payload|;
    }

    lemma LoopGoesOn(e: Event, memory: uint32, fragment: uint32, offset: uint32, fragments: seq<Wire.Fragment>,
                     dataPart: string)
      requires Looping(e, memory, fragment, offset, fragments) && (fragment == 0 || offset < |e.payload|)
      requires fragment < memory && !BudgetOf(e).TooBig(fragment)
      requires dataPart == Substr(e.payload, offset, BudgetOf(e).Room().At(fragment))
      ensures var header := if fragment == 0 then e.header else NO_HEADER;
              Looping(e, memory, fragment + 1, Add32(offset, BudgetOf(e).Room().At(fragment)),
                      fragments + [Wire.Fragment(Notification(e.id, header, dataPart), fragment, 1)])
    {
      var c := BudgetOf(e).Room();
      assert c.Offset32(1) == Add32(c.Offset32(0), c.At(0));
      OptimisticGrows(e, Emitted(e.payload, c, fragment), dataPart);
    }

    lemma LoopEnds(e: Event, memory: uint32, fragment: uint32, offset: uint32, fragments: seq<Wire.Fragment>)
      requires Looping(e, memory, fragment, offset, fragments) && fragment > 0 && offset >= |e.payload|
      ensures CutOf(e, memory).Ok? && fragments == Optimistic(e, CutOf(e, memory).value)
    {
      var c := BudgetOf(e).Room();
      assert c.Offset32(1) == Add32(c.Offset32(0), c.At(0));
      if |e.payload| > c.first {
        PassingExact(c, |e.payload|, memory, fragment);
      }
    }

    /** The fragmentation loop; every fragment optimistically claims to be the only one. */
    method Fragment(n: OutgoingNotification, e: Event, memory: uint32) returns (error: Option<Error>)
      requires n.serializedPayload == e.payload && n.fragments == []
      modifies n`fragments
      ensures match CutOf(e, memory)
              case Err(x) => error == Some(x)
              case Ok(parts) =>
                && error == None && n.fragments == Optimistic(e, parts)
                && forall i | 0 <= i < |parts| ::
                     var header := if i == 0 then e.header else NO_HEADER;
                     n.fragments[i] == Wire.Fragment(Notification(e.id, header, parts[i]), i, 1)
      ensures maxFragmentSize >= 5 ==>
                var full := byteSize(Notification(e.id, e.header, ""));
                var later := byteSize(Notification(e.id, NO_HEADER, ""));
                && (error == Some(ProtocolError) <==>
                      && memory >= 1
                      && (full + 5 >= maxFragmentSize
                          || (memory >= 2 && |e.payload| > maxFragmentSize - full && later + 5 >= maxFragmentSize)))
                && (error == None ==>
                      full + 6 <= maxFragmentSize && (|n.fragments| > 1 ==> later + 6 <= maxFragmentSize))
    {
      if maxFragmentSize >= 5 {
        SizesDecide(e.payload, BudgetOf(e), memory);
      }
      var fragment: uint32, offset: uint32 := 0, 0;
      while fragment == 0 || offset < |n.serializedPayload|
        invariant Looping(e, memory, fragment, offset, n.fragments)
        decreases memory - fragment
      {
        LoopFails(e, memory, fragment, offset, n.fragments);
        if fragment == memory {
          return Some(OutOfMemory);
        }
        var header := Notification(e.id, if fragment == 0 then e.header else NO_HEADER, "");
        var headerByteSize := byteSize(header);
        assert headerByteSize == BudgetOf(e).HeaderSize(fragment);
        if headerByteSize >= Sub32(maxFragmentSize, MIN_DATA_SPACE) {
          return Some(ProtocolError);
        }
        var maxDataPartSize := Sub32(maxFragmentSize, headerByteSize);
        var dataPart := Substr(n.serializedPayload, offset, maxDataPartSize);
        LoopGoesOn(e, memory, fragment, offset, n.fragments, dataPart);
        n.fragments := n.fragments + [Wire.Fragment(header.(data := dataPart), fragment, 1)];
        offset := Add32(offset, maxDataPartSize);
        fragment := Add32(fragment, 1);
      }
      LoopEnds(e, memory, fragment, offset, n.fragments);
      return None;
    }

    /** Builds the notification of an event; this is where a size error comes up. */
    method Prepare(e: Event, memory: uint32) returns (n: OutgoingNotification, error: Option<Error>)
      requires Valid()
      modifies groupNameCache
      ensures Valid() && fresh(n)
      ensures match CutOf(e, memory)
              case Err(x) => error == Some(x)
              case Ok(parts) => && error == None && n.fragments == Optimistic(e, parts)
                                && Observe(n.View()) == e && n.scope == e.header.scope
      ensures n.groups == Names(bus.md5, e.header.scope)
    {
      var groups := groupNameCache.ScopeToGroups(e.header.scope);
      n := new OutgoingNotification(e.header.scope, e.header.wireSchema, e.payload, groups);
      error := Fragment(n, e, memory);
    }

    /**
     * Sends an event. Nothing is sent and no sink is called if a fragment
     * would be too small for its header, or memory does not hold all of them.
     * `failAt` is the first multicast that the daemon refuses. If it refuses
     * none, this is a publication of the event.
     */
    method Handle(e: Event, memory: uint32, failAt: nat) returns (error: Option<Error>)
      requires Valid()
      modifies groupNameCache, bus.connection`posted, bus`delivered
      ensures Valid()
      ensures CutOf(e, memory).Err? ==>
                && error == Some(CutOf(e, memory).error)
                && bus.connection.posted == old(bus.connection.posted) && bus.delivered == old(bus.delivered)
      ensures CutOf(e, memory).Ok? ==>
                var count := |CutOf(e, memory).value|;
                && (error.None? <==> bus.connection.connected && failAt >= count)
                && (error.Some? ==> error.value == if bus.connection.connected then CommError else IllegalState)
                && bus.connection.posted == old(bus.connection.posted)
                     + Posts(Routing.GroupsOf(bus.md5, Packet(e, CutOf(e, memory).value)),
                             Pieces(Packet(e, CutOf(e, memory).value)))
                       [..if error.None? then count else if bus.connection.connected then failAt else 0]
      ensures error.Some? ==> bus.delivered == old(bus.delivered)
      ensures error.None? ==> CalledOnce(old(bus.delivered), bus.delivered, bus.sinks, e.header.scope, e)
      ensures error.None? ==>
                Routing.Publishes(bus.md5, Packet(e, CutOf(e, memory).value),
                                  bus.connection.posted[|old(bus.connection.posted)|..],
                                  bus.sinks, old(bus.delivered), bus.delivered)
    {
      var n;
      n, error := Prepare(e, memory);
      if error.Some? {
        return;
      }
      error := HandOver(n, e, CutOf(e, memory).value, failAt);
    }

    /** The end of `handle`: the notification goes to the bus. */
    method HandOver(n: OutgoingNotification, e: Event, ghost parts: seq<string>, failAt: nat)
      returns (error: Option<Error>)
      requires 0 < |parts| < TWO32 && n.fragments == Optimistic(e, parts)
      requires n.groups == Names(bus.md5, e.header.scope) && n.scope == e.header.scope && Observe(n.View()) == e
      modifies n`fragments, bus.connection`posted, bus`delivered
      ensures error.None? <==> bus.connection.connected && failAt >= |parts|
      ensures error.Some? ==> error.value == if bus.connection.connected then CommError else IllegalState
      ensures |bus.connection.posted| == |old(bus.connection.posted)|
                + (if error.None? then |parts| else if bus.connection.connected then failAt else 0)
      ensures old(bus.connection.posted) <= bus.connection.posted
      ensures forall i | 0 <= i < |bus.connection.posted| - |old(bus.connection.posted)| ::
                && i < |parts|
                && bus.connection.posted[|old(bus.connection.posted)| + i] ==
                   Posted((set k | 0 <= k <= |e.header.scope| :: ScopeToGroup(bus.md5, e.header.scope[..k])),
                          Some(Wire.Fragment(Notification(e.id, if i == 0 then e.header else NO_HEADER, parts[i]),
                                             i, |parts|)),
                          true)
      ensures bus.connection.posted == old(bus.connection.posted)
                + Posts(Routing.GroupsOf(bus.md5, Packet(e, parts)), Pieces(Packet(e, parts)))
                  [..if error.None? then |parts| else if bus.connection.connected then failAt else 0]
      ensures error.Some? ==> bus.delivered == old(bus.delivered)
      ensures error.None? ==> CalledOnce(old(bus.delivered), bus.delivered, bus.sinks, e.header.scope, e)
      ensures error.None? ==>
                Routing.Publishes(bus.md5, Packet(e, parts), bus.connection.posted[|old(bus.connection.posted)|..],
                                  bus.sinks, old(bus.delivered), bus.delivered)
    {
      ghost var before := bus.connection.posted;
      forall g | g in n.groups ensures NameFits(g) {
        NamesExact(bus.md5, e.header.scope, g);
      }
      error := bus.HandleOutgoingNotification(n, failAt);
      SentArePieces(bus.md5, e, parts, before, bus.connection.posted);
      if error.None? {
        Routing.PostsPublish(bus.md5, Packet(e, parts), bus.sinks, old(bus.delivered), bus.delivered);
      }
    }
  }

  /** The optimistic fragments with the final count, sent to the groups of a scope, are the pieces of a packet. */
  lemma SentArePieces(md5: Hash, e: Event, parts: seq<string>, before: seq<Posted>, after: seq<Posted>)
    requires |parts| < TWO32 && before <= after && |after| - |before| <= |parts|
    requires forall i | 0 <= i < |after| - |before| ::
               after[|before| + i] == Posted((set g | g in Names(md5, e.header.scope)),
                                             Some(Optimistic(e, parts)[i].(count := |parts| % TWO32)), true)
    ensures forall i | 0 <= i < |after| - |before| ::
              after[|before| + i] ==
              Posted((set k | 0 <= k <= |e.header.scope| :: ScopeToGroup(md5, e.header.scope[..k])),
                     Some(Wire.Fragment(Notification(e.id, if i == 0 then e.header else NO_HEADER, parts[i]),
                                        i, |parts|)),
                     true)
    ensures after == before + Posts(Routing.GroupsOf(md5, Packet(e, parts)), Pieces(Packet(e, parts)))
                              [..|after| - |before|]
    ensures |after| - |before| == |parts| ==>
              after[|before|..] == Posts(Routing.GroupsOf(md5, Packet(e, parts)), Pieces(Packet(e, parts)))
  {
    NamesAsSet(md5, e.header.scope);
    forall i | 0 <= i < |after| - |before|
      ensures after[|before| + i] ==
              Posted((set k | 0 <= k <= |e.header.scope| :: ScopeToGroup(md5, e.header.scope[..k])),
                     Some(Wire.Fragment(Notification(e.id, if i == 0 then e.header else NO_HEADER, parts[i]),
                                        i, |parts|)),
                     true)
    {
      assert Optimistic(e, parts)[i].(count := |parts| % TWO32) == Piece(Packet(e, parts), i);
    }
  }

  lemma NamesAsSet(md5: Hash, scope: Scope)
    ensures (set g | g in Names(md5, scope)) == set k | 0 <= k <= |scope| :: ScopeToGroup(md5, scope[..k])
  {
    forall k | 0 <= k <= |scope| ensures ScopeToGroup(md5, scope[..k]) in Names(md5, scope) {
      assert Names(md5, scope)[k] == ScopeToGroup(md5, scope[..k]);
    }
  }

  /**
   * Every fragment that a connector sends stays within the limit, and together
   * they are a proper packet of the event exactly when nothing wraps. All but
   * the last then use the limit up.
   */
  lemma SentPacketsAreWellCut(c: OutConnector, e: Event, memory: uint32, j: nat)
    requires 5 <= c.maxFragmentSize && c.CutOf(e, memory).Ok? && j < |c.CutOf(e, memory).value|
    ensures var p := Packet(e, c.CutOf(e, memory).value); var n := Piece(p, j).notification;
            && (WellCut(p) <==> c.BudgetOf(e).Room().NoWrap(|e.payload|))
            && c.byteSize(n.(data := "")) + |n.data| <= c.maxFragmentSize
            && (WellCut(p) && j < |p.parts| - 1 ==> c.byteSize(n.(data := "")) + |n.data| == c.maxFragmentSize)
  {
    var b := c.BudgetOf(e);
    assert c.CutOf(e, memory) == CutWithin(e.payload, b, memory);
    CutOffIsCut(e.payload, b, memory);
    CutOffFits(e.payload, b, memory, j);
    if b.Room().NoWrap(|e.payload|) && j < |c.CutOf(e, memory).value| - 1 {
      CutOffIsFull(e.payload, b, memory, j);
    }
  }

  class InConnector {
    const bus: BusImpl
    const id: nat
    var scope: Scope
    var active: bool

    constructor (bus: BusImpl, id: nat)
      ensures this.bus == bus && this.id == id && !active
    {
      this.bus, this.id := bus, id;
      scope, active := [], false;
    }

    function State(): Connector
      reads this
    {
      Connector(scope, active)
    }

    method Activate(daemonOk: bool) returns (o: Outcome)
      requires bus.Valid()
      modifies this`active, bus`sinks, bus.memberships, bus.connection`joined
      ensures (State(), bus.State(), o)
           == ActivateConnector(bus.md5, id, old(State()), old(bus.State()), bus.connection.Trouble(daemonOk))
    {
      if active {
        return Thrown(IllegalState);
      }
      var e := bus.AddSink(scope, id, daemonOk);
      if e.Some? {
        return Thrown(e.value);
      }
      active := true;
      return Done;
    }

    /** The group of an active connector has to be counted; `leave` asserts it. */
    method Deactivate(daemonOk: bool) returns (o: Outcome)
      requires bus.Valid() && (active ==> ScopeToGroup(bus.md5, scope) in bus.memberships.groups)
      modifies this`active, bus`sinks, bus.memberships, bus.connection`joined
      ensures (State(), bus.State(), o)
           == DeactivateConnector(bus.md5, id, old(State()), old(bus.State()), bus.connection.Trouble(daemonOk))
    {
      if !active {
        return Thrown(IllegalState);
      }
      var e := bus.RemoveSink(scope, id, daemonOk);
      if e.Some? {
        return Thrown(e.value);
      }
      active := false;
      return Done;
    }

    method SetScope(scope: Scope)
      requires !active
      modifies this`scope
      ensures State() == old(State()).(scope := scope)
    {
      this.scope := scope;
    }
  }
}
