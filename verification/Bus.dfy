/** The bus: sinks, memberships, sending and local dispatch. */
module Bus {
  import opened Wire
  import opened GroupNames
  import opened Membership
  import opened Connection

  /** A notification as it is handed to a sink. */
  datatype Received = Received(scope: Scope, wireSchema: string, payload: string, record: Notification)

  /** What `notificationToEvent` uses: the record's id and meta data, and the three separate fields. */
  function Observe(r: Received): Event {
    Event(r.record.id, Header(r.scope, r.wireSchema, r.record.header.metaData), r.payload)
  }

  /** What a joined record becomes on the receiving side. */
  function FromRecord(n: Notification): Received {
    Received(n.header.scope, n.header.wireSchema, n.data, n)
  }

  /** What local sinks of the publishing bus get for a packet. */
  function LocalView(p: Packet): Received
    requires WellCut(p)
  {
    Received(p.event.header.scope, p.event.header.wireSchema, p.event.payload, Piece(p, 0).notification)
  }

  /**
   * Local and remote sinks see the same event, although the record that comes
   * with a local notification only holds the data of the first fragment.
   */
  lemma LocalAndRemoteAgree(p: Packet)
    requires WellCut(p)
    ensures var remote := FromRecord(Whole(p.event));
            && Observe(LocalView(p)) == Observe(remote) == p.event
            && LocalView(p).(record := remote.record) == remote
            && (LocalView(p) == remote <==> Flatten(p.parts[1..]) == "")
  {
    var a, rest := [p.parts[0]], p.parts[1..];
    assert p.parts == a + rest && a[..0] == [];
    FlattenConcat(a, rest);
    assert Flatten(a) == Flatten([]) + a[0];
  }

  /** The scope dispatcher: every sink whose scope is a super-scope or the scope itself, once. */
  function DispatchTo(sinks: set<Registration>, scope: Scope, e: Event): multiset<(Registration, Event)> {
    multiset(set r | r in sinks && r.scope <= scope :: (r, e))
  }

  lemma DispatchCount(sinks: set<Registration>, scope: Scope, e: Event, r: Registration, x: Event)
    ensures DispatchTo(sinks, scope, e)[(r, x)] == if x == e && r in sinks && r.scope <= scope then 1 else 0
  {
    var s := set q | q in sinks && q.scope <= scope :: (q, e);
    assert (r, x) in s <==> x == e && r in sinks && r.scope <= scope;
  }

  /** Every sink in a super-scope has been called once more with the event, and no other has been called. */
  ghost predicate CalledOnce(before: multiset<(Registration, Event)>, after: multiset<(Registration, Event)>,
                             sinks: set<Registration>, scope: Scope, e: Event)
  {
    forall r, x :: after[(r, x)] == before[(r, x)] + if x == e && r in sinks && r.scope <= scope then 1 else 0
  }

  /** A dispatch is the only change of the calls that does this. */
  lemma CalledOnceIff(before: multiset<(Registration, Event)>, after: multiset<(Registration, Event)>,
                      sinks: set<Registration>, scope: Scope, e: Event)
    ensures CalledOnce(before, after, sinks, scope, e) <==> after == before + DispatchTo(sinks, scope, e)
  {
    var all := before + DispatchTo(sinks, scope, e);
    forall r, x
      ensures all[(r, x)] == before[(r, x)] + if x == e && r in sinks && r.scope <= scope then 1 else 0
    {
      DispatchCount(sinks, scope, e, r, x);
    }
    if CalledOnce(before, after, sinks, scope, e) {
      forall c: (Registration, Event) ensures after[c] == all[c] {
        assert c == (c.0, c.1);
      }
    }
  }

  /** An error is reported to every sink once. */
  function ReportTo(sinks: set<Registration>, e: Error): multiset<(Registration, Error)> {
    multiset(set r | r in sinks :: (r, e))
  }

  /** Every sink has been told of the error once more, and nothing else has been reported. */
  ghost predicate ReportedOnce(before: multiset<(Registration, Error)>, after: multiset<(Registration, Error)>,
                               sinks: set<Registration>, e: Error)
  {
    forall r, x :: after[(r, x)] == before[(r, x)] + if x == e && r in sinks then 1 else 0
  }

  lemma ReportedOnceIff(before: multiset<(Registration, Error)>, after: multiset<(Registration, Error)>,
                        sinks: set<Registration>, e: Error)
    ensures ReportedOnce(before, after, sinks, e) <==> after == before + ReportTo(sinks, e)
  {
    var reports := set r | r in sinks :: (r, e);
    assert forall r, x :: (r, x) in reports <==> x == e && r in sinks;
    if ReportedOnce(before, after, sinks, e) {
      forall c: (Registration, Error) ensures after[c] == (before + ReportTo(sinks, e))[c] {
        assert c == (c.0, c.1);
      }
    }
  }

  /** A notification on its way out; its fragments are rewritten while they are sent. */
  class OutgoingNotification {
    const scope: Scope
    const wireSchema: string
    const serializedPayload: string
    const groups: seq<string>
    var fragments: seq<Fragment>

    constructor (scope: Scope, wireSchema: string, serializedPayload: string, groups: seq<string>)
      ensures this.scope == scope && this.wireSchema == wireSchema
      ensures this.serializedPayload == serializedPayload && this.groups == groups
      ensures fragments == []
    {
      this.scope, this.wireSchema, this.serializedPayload := scope, wireSchema, serializedPayload;
      this.groups, fragments := groups, [];
    }

    /** What local sinks get: the payload is complete, the record is that of fragment 0. */
    function View(): Received
      requires |fragments| > 0
      reads this
    {
      Received(scope, wireSchema, serializedPayload, fragments[0].notification)
    }
  }

  function GroupSet(groups: seq<string>): set<string> {
    set g | g in groups
  }

  function Posts(groups: set<string>, fragments: seq<Fragment>): seq<Posted> {
    seq(|fragments|, i requires 0 <= i < |fragments| => Posted(groups, Some(fragments[i]), true))
  }

  class BusImpl {
    var active: bool
    const connection: SpreadConnection
    const memberships: MembershipManager
    var sinks: set<Registration>
    /** Every call of a sink so far. */
    var delivered: multiset<(Registration, Event)>
    /** Every error that has been reported to a sink so far. */
    var errors: multiset<(Registration, Error)>
    const md5: Hash

    ghost predicate Valid() {
      memberships.connection == connection
    }

    constructor (connection: SpreadConnection, md5: Hash)
      ensures Valid() && this.connection == connection && this.md5 == md5 && fresh(memberships)
      ensures !active && sinks == {} && delivered == multiset{} && errors == multiset{}
      ensures memberships.groups == map[]
    {
      this.connection, this.md5 := connection, md5;
      memberships := new MembershipManager(connection);
      active, sinks, delivered, errors := false, {}, multiset{}, multiset{};
    }

    ghost function State(): Hub
      reads this, memberships, memberships.connection
    {
      Hub(sinks, memberships.State())
    }

    method AddSink(scope: Scope, sink: nat, daemonOk: bool) returns (e: Option<Error>)
      requires Valid()
      modifies this`sinks, memberships, connection`joined
      ensures var (m, x) := JoinGroup(old(memberships.State()), ScopeToGroup(md5, scope), connection.Trouble(daemonOk));
              && e == x && memberships.State() == m
              && sinks == if x.None? then old(sinks) + {Registration(scope, sink)} else old(sinks)
    {
      e := memberships.Join(ScopeToGroup(md5, scope), daemonOk);
      if e.None? {
        sinks := sinks + {Registration(scope, sink)};
      }
    }

    method RemoveSink(scope: Scope, sink: nat, daemonOk: bool) returns (e: Option<Error>)
      requires Valid() && ScopeToGroup(md5, scope) in memberships.groups
      modifies this`sinks, memberships, connection`joined
      ensures var (m, x) := LeaveGroup(old(memberships.State()), ScopeToGroup(md5, scope),
                                       connection.Trouble(daemonOk));
              && e == x && memberships.State() == m
              && sinks == old(sinks) - {Registration(scope, sink)}
    {
      sinks := sinks - {Registration(scope, sink)};
      e := memberships.Leave(ScopeToGroup(md5, scope), daemonOk);
    }

    method HandleIncomingNotification(n: Received)
      modifies this`delivered
      ensures CalledOnce(old(delivered), delivered, sinks, n.scope, Observe(n))
    {
      delivered := delivered + DispatchTo(sinks, n.scope, Observe(n));
      CalledOnceIff(old(delivered), delivered, sinks, n.scope, Observe(n));
    }

    method HandleError(e: Error)
      modifies this`errors
      ensures ReportedOnce(old(errors), errors, sinks, e)
    {
      errors := errors + ReportTo(sinks, e);
      ReportedOnceIff(old(errors), errors, sinks, e);
    }

    /**
     * Sends the fragments one by one; `failAt` is the first multicast that the
     * daemon refuses. Group names are checked before anything is sent.
     */
    method SendNotification(n: OutgoingNotification, failAt: nat) returns (e: Option<Error>)
      modifies n`fragments, connection`posted
      ensures |n.fragments| == |old(n.fragments)|
      ensures forall i | 0 <= i < |n.fragments| :: n.fragments[i].notification == old(n.fragments)[i].notification
      ensures (exists g :: g in n.groups && !NameFits(g)) ==>
                && e == Some(InvalidArgument)
                && n.fragments == old(n.fragments) && connection.posted == old(connection.posted)
      ensures (forall g | g in n.groups :: NameFits(g)) ==>
                && (e.None? <==>
                      old(n.fragments) == []
                      || (connection.connected && n.groups != [] && failAt >= |old(n.fragments)|))
                && (e.Some? ==> e.value == if connection.connected then CommError else IllegalState)
                && |connection.posted| == |old(connection.posted)|
                     + (if e.None? then |old(n.fragments)|
                        else if connection.connected && n.groups != [] then failAt else 0)
      ensures old(connection.posted) <= connection.posted
      ensures forall i | 0 <= i < |connection.posted| - |old(connection.posted)| ::
                && i < |old(n.fragments)|
                && connection.posted[|old(connection.posted)| + i]
                   == Posted((set g | g in n.groups),
                             Some(old(n.fragments)[i].(count := |old(n.fragments)| % TWO32)), true)
    {
      var groups: set<string> := {};
      for i := 0 to |n.groups|
        invariant forall g | g in n.groups[..i] :: NameFits(g)
        invariant groups == GroupSet(n.groups[..i])
      {
        if !NameFits(n.groups[i]) {
          return Some(InvalidArgument);
        }
        groups := groups + {n.groups[i]};
      }
      assert n.groups[..|n.groups|] == n.groups;
      assert n.groups != [] ==> n.groups[0] in groups;
      e := SendFragments(n, groups, failAt);
    }

    method SendFragments(n: OutgoingNotification, groups: set<string>, failAt: nat) returns (e: Option<Error>)
      modifies n`fragments, connection`posted
      ensures |n.fragments| == |old(n.fragments)|
      ensures forall i | 0 <= i < |n.fragments| :: n.fragments[i].notification == old(n.fragments)[i].notification
      ensures e.None? <==>
              old(n.fragments) == [] || (connection.connected && groups != {} && failAt >= |old(n.fragments)|)
      ensures e.Some? ==> e.value == if connection.connected then CommError else IllegalState
      ensures |connection.posted| == |old(connection.posted)|
                + (if e.None? then |old(n.fragments)| else if connection.connected && groups != {} then failAt else 0)
      ensures old(connection.posted) <= connection.posted
      ensures forall i | 0 <= i < |connection.posted| - |old(connection.posted)| ::
                && i < |old(n.fragments)|
                && connection.posted[|old(connection.posted)| + i]
                   == Posted(groups, Some(old(n.fragments)[i].(count := |old(n.fragments)| % TWO32)), true)
    {
      ghost var fs, before := n.fragments, connection.posted;
      for i := 0 to |n.fragments|
        invariant |n.fragments| == |fs|
        invariant forall j | 0 <= j < |fs| :: n.fragments[j].notification == fs[j].notification
        invariant forall j | i <= j < |fs| :: n.fragments[j] == fs[j]
        invariant i > 0 ==> connection.connected && groups != {} && i <= failAt
        invariant |connection.posted| == |before| + i && before <= connection.posted
        invariant forall j | 0 <= j < i ::
                    connection.posted[|before| + j] == Posted(groups, Some(fs[j].(count := |fs| % TWO32)), true)
      {
        n.fragments := n.fragments[i := n.fragments[i].(count := |n.fragments| % TWO32)];
        e := connection.Send(groups, Some(n.fragments[i]), i < failAt);
        if e.Some? {
          return e;
        }
      }
      return None;
    }

    /** Remote buses first, then the local sinks, unless sending has thrown. */
    method HandleOutgoingNotification(n: OutgoingNotification, failAt: nat) returns (e: Option<Error>)
      requires |n.fragments| > 0
      modifies n`fragments, connection`posted, this`delivered
      ensures (exists g :: g in n.groups && !NameFits(g)) ==>
                e == Some(InvalidArgument) && connection.posted == old(connection.posted)
      ensures (forall g | g in n.groups :: NameFits(g)) ==>
                && (e.None? <==> connection.connected && n.groups != [] && failAt >= |old(n.fragments)|)
                && (e.Some? ==> e.value == if connection.connected then CommError else IllegalState)
                && |connection.posted| == |old(connection.posted)|
                     + (if e.None? then |old(n.fragments)|
                        else if connection.connected && n.groups != [] then failAt else 0)
      ensures old(connection.posted) <= connection.posted
      ensures forall i | 0 <= i < |connection.posted| - |old(connection.posted)| ::
                && i < |old(n.fragments)|
                && connection.posted[|old(connection.posted)| + i]
                   == Posted((set g | g in n.groups),
                             Some(old(n.fragments)[i].(count := |old(n.fragments)| % TWO32)), true)
      ensures e.Some? ==> delivered == old(delivered)
      ensures e.None? ==> CalledOnce(old(delivered), delivered, sinks, n.scope, Observe(old(n.View())))
    {
      e := SendNotification(n, failAt);
      if e.Some? {
        return;
      }
      delivered := delivered + DispatchTo(sinks, n.scope, Observe(n.View()));
      CalledOnceIff(old(delivered), delivered, sinks, n.scope, Observe(n.View()));
    }
  }
}
