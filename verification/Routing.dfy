/** Several buses on one Spread network: who gets a published event, and how often. */
module Routing {
  import opened Wire
  import opened GroupNames
  import opened Membership
  import opened Connection
  import opened Bus
  import Channel
  import RoundTrip

  /**
   * A bus with its sinks, the groups it has joined, its receiving side and the
   * calls of its sinks; `heard` has the sinks at the time of each reception.
   */
  datatype Node = Node(sinks: set<Registration>, groups: set<string>, rx: Channel.State,
                       heard: seq<set<Registration>>, log: multiset<(Registration, Event)>)

  /** A published packet, and the sinks that each bus had at that time. */
  datatype Publication = Publication(origin: nat, packet: Packet, sinks: seq<set<Registration>>) {
    function SinksOf(b: nat): set<Registration> {
      if b < |sinks| then sinks[b] else {}
    }
  }

  datatype System = System(nodes: seq<Node>, published: seq<Publication>)

  datatype Step =
    | Publish(origin: nat, packet: Packet)
    | Arrive(node: nat, fragment: Fragment, now: int)
    | AddSink(node: nat, sink: Registration)
    | RemoveSink(node: nat, sink: Registration)

  function GroupsOf(md5: Hash, p: Packet): set<string> {
    GroupSet(Names(md5, p.event.header.scope))
  }

  function GroupsFor(md5: Hash, sinks: set<Registration>): set<string> {
    set r | r in sinks :: ScopeToGroup(md5, r.scope)
  }

  /** Spread takes the messages of a packet to another bus in these groups. */
  predicate Addressed(md5: Hash, groups: set<string>, p: Packet) {
    GroupsOf(md5, p) * groups != {}
  }

  ghost predicate FreshPacket(published: seq<Publication>, p: Packet) {
    forall i | 0 <= i < |published| :: Key(published[i].packet.event.id) != Key(p.event.id)
  }

  ghost predicate Enabled(s: System, step: Step) {
    match step
    case Publish(o, p) => o < |s.nodes| && WellCut(p) && FreshPacket(s.published, p)
    case Arrive(b, f, _) => b < |s.nodes| && f in s.nodes[b].rx.net
    case AddSink(b, r) => b < |s.nodes| && r !in s.nodes[b].sinks
    case RemoveSink(b, r) => b < |s.nodes| && r in s.nodes[b].sinks
  }

  /** The receiving side takes a fragment and hands what is completed to the sinks. */
  function Arrived(n: Node, f: Fragment, now: int): Node
    requires f in n.rx.net
  {
    var rx := Channel.Next(n.rx, Channel.Deliver(f, now));
    if |rx.out| == |n.rx.out| || |rx.out| == 0 then n.(rx := rx)
    else
      var r := FromRecord(rx.out[|rx.out| - 1]);
      n.(rx := rx, heard := n.heard + [n.sinks], log := n.log + DispatchTo(n.sinks, r.scope, Observe(r)))
  }

  /** The first sink in a group joins it. */
  function Added(md5: Hash, n: Node, r: Registration): Node {
    n.(sinks := n.sinks + {r}, groups := n.groups + {ScopeToGroup(md5, r.scope)})
  }

  /** The last sink in a group leaves it. */
  function Removed(md5: Hash, n: Node, r: Registration): Node {
    var sinks, g := n.sinks - {r}, ScopeToGroup(md5, r.scope);
    n.(sinks := sinks,
       groups := if exists q :: q in sinks && ScopeToGroup(md5, q.scope) == g then n.groups else n.groups - {g})
  }

  /** The publishing bus serves its own sinks, the others get what Spread takes to them. */
  function NodeNext(md5: Hash, n: Node, b: nat, step: Step): Node
    requires step.Arrive? && step.node == b ==> step.fragment in n.rx.net
  {
    match step
    case Publish(o, p) =>
      if o == b then n.(log := n.log + DispatchTo(n.sinks, p.event.header.scope, p.event))
      else if Addressed(md5, n.groups, p) then n.(rx := Channel.Sent(n.rx, p))
      else n
    case Arrive(c, f, now) => if c == b then Arrived(n, f, now) else n
    case AddSink(c, r) => if c == b then Added(md5, n, r) else n
    case RemoveSink(c, r) => if c == b then Removed(md5, n, r) else n
  }

  function PublishedNext(s: System, step: Step): seq<Publication> {
    if step.Publish?
    then s.published + [Publication(step.origin, step.packet,
                                    seq(|s.nodes|, b requires 0 <= b < |s.nodes| => s.nodes[b].sinks))]
    else s.published
  }

  function Next(md5: Hash, s: System, step: Step): System
    requires Enabled(s, step)
  {
    System(seq(|s.nodes|, b requires 0 <= b < |s.nodes| => NodeNext(md5, s.nodes[b], b, step)),
           PublishedNext(s, step))
  }

  /** Runs can start with any sinks, and go on with any fresh event, any fragment under way and any change of sinks. */
  lemma GoesOnWithAnyStep(md5: Hash, start: System, steps: seq<Step>, step: Step)
    requires Allowed(md5, start, steps)
    requires var s := After(md5, start, steps); var b := if step.Publish? then step.origin else step.node;
             && b < |s.nodes|
             && (step.Publish? ==>
                   && |step.packet.parts| >= 1 && Flatten(step.packet.parts) == step.packet.event.payload
                   && forall pub | pub in s.published :: Key(pub.packet.event.id) != Key(step.packet.event.id))
             && (step.Arrive? ==> step.fragment in s.nodes[b].rx.net)
             && (step.AddSink? ==> step.sink !in s.nodes[b].sinks)
             && (step.RemoveSink? ==> step.sink in s.nodes[b].sinks)
    ensures Allowed(md5, start, steps + [step])
    ensures After(md5, start, steps + [step]) == Next(md5, After(md5, start, steps), step)
  {
    assert (steps + [step])[..|steps|] == steps;
    forall i | 0 <= i < |After(md5, start, steps).published|
      ensures step.Publish? ==>
                Key(After(md5, start, steps).published[i].packet.event.id) != Key(step.packet.event.id)
    {
      assert After(md5, start, steps).published[i] in After(md5, start, steps).published;
    }
  }

  lemma StartsWithAnySinks(md5: Hash, sinks: seq<set<Registration>>)
    ensures var node := (b: int) requires 0 <= b < |sinks| =>
                          Node(sinks[b], set r | r in sinks[b] :: ScopeToGroup(md5, r.scope),
                               Channel.INIT, [], multiset{});
            Allowed(md5, System(seq(|sinks|, node), []), [])
  {
  }

  /** What the steps of a run record: publications with the sinks of that time, and sinks that come and go. */
  lemma StepExact(md5: Hash, s: System, step: Step, b: nat)
    requires Enabled(s, step) && b < |s.nodes|
    ensures var t := Next(md5, s, step); var n := s.nodes[b]; var m := t.nodes[b];
            && |t.nodes| == |s.nodes|
            && (step.Publish? ==>
                  && |t.published| == |s.published| + 1 && s.published <= t.published
                  && t.published[|s.published|].origin == step.origin
                  && t.published[|s.published|].packet == step.packet
                  && t.published[|s.published|].SinksOf(b) == n.sinks)
            && (!step.Publish? ==> t.published == s.published)
            && (step.AddSink? && step.node == b ==> m.sinks == n.sinks + {step.sink} && m.log == n.log && m.rx == n.rx)
            && (step.RemoveSink? && step.node == b ==>
                  m.sinks == n.sinks - {step.sink} && m.log == n.log && m.rx == n.rx)
            && (step.Arrive? && step.node == b ==>
                  m.sinks == n.sinks && m.rx == Channel.Next(n.rx, Channel.Deliver(step.fragment, step.now)))
            && (!step.Publish? && step.node != b ==> m == n)
  {
  }

  /** Every bus is in exactly the groups of its sinks. */
  ghost predicate GroupsMatch(md5: Hash, n: Node) {
    n.groups == GroupsFor(md5, n.sinks)
  }

  ghost predicate InitialNode(md5: Hash, n: Node) {
    GroupsMatch(md5, n) && n.rx == Channel.INIT && n.heard == [] && n.log == multiset{}
  }

  ghost predicate Initial(md5: Hash, s: System) {
    s.published == [] && forall b | 0 <= b < |s.nodes| :: InitialNode(md5, s.nodes[b])
  }

  ghost predicate Allowed(md5: Hash, start: System, steps: seq<Step>)
    decreases |steps|, 0
  {
    if steps == [] then Initial(md5, start)
    else Allowed(md5, start, steps[..|steps| - 1])
         && Enabled(After(md5, start, steps[..|steps| - 1]), steps[|steps| - 1])
  }

  ghost function After(md5: Hash, start: System, steps: seq<Step>): System
    requires Allowed(md5, start, steps)
    decreases |steps|, 1
  {
    if steps == [] then start
    else Next(md5, After(md5, start, steps[..|steps| - 1]), steps[|steps| - 1])
  }

  // ---------------------------------------------------------------- the network underneath

  /** What of some multicasts comes to a connection. */
  function Coming(posted: seq<Posted>, fromSelf: bool, joined: set<string>, privateGroup: string): multiset<Fragment> {
    if posted == [] then multiset{}
    else
      var m := posted[|posted| - 1];
      Coming(posted[..|posted| - 1], fromSelf, joined, privateGroup)
      + (if Reaches(m, fromSelf, joined, privateGroup) && m.body.Some? then multiset{m.body.value} else multiset{})
  }

  /** Private groups having names of their own, the daemon's rule is the one of this model. */
  lemma AddressedIsReached(md5: Hash, groups: set<string>, p: Packet, f: Fragment, privateGroup: string)
    requires privateGroup !in GroupsOf(md5, p)
    ensures Addressed(md5, groups, p) <==>
            Reaches(Posted(GroupsOf(md5, p), Some(f), true), false, groups, privateGroup)
    ensures !Reaches(Posted(GroupsOf(md5, p), Some(f), true), true, groups, privateGroup)
  {
    assert GroupsOf(md5, p) * (groups + {privateGroup}) == GroupsOf(md5, p) * groups;
  }

  /** Messages to groups of scopes come to the other buses in one of them, all or none. */
  lemma {:induction false} ComingExact(groups: set<string>, fs: seq<Fragment>, fromSelf: bool, joined: set<string>,
                                       privateGroup: string)
    requires privateGroup !in groups
    ensures Coming(Posts(groups, fs), fromSelf, joined, privateGroup)
         == if !fromSelf && groups * joined != {} then multiset(fs) else multiset{}
  {
    assert groups * (joined + {privateGroup}) == groups * joined;
    if fs == [] {
    } else {
      var n := |fs| - 1;
      assert Posts(groups, fs)[..n] == Posts(groups, fs[..n]);
      assert fs == fs[..n] + [fs[n]];
      ComingExact(groups, fs[..n], fromSelf, joined, privateGroup);
    }
  }

  /**
   * What a successful `handle` posts and calls is a publication: every other
   * bus gets the pieces that the daemon takes to it, and the own sinks are
   * called.
   */
  lemma PublishIsHandled(md5: Hash, n: Node, b: nat, o: nat, p: Packet, privateGroup: string,
                         after: multiset<(Registration, Event)>)
    requires privateGroup !in GroupsOf(md5, p)
    requires if o == b then CalledOnce(n.log, after, n.sinks, p.event.header.scope, p.event) else after == n.log
    ensures var t := NodeNext(md5, n, b, Publish(o, p));
            && t.rx.net == n.rx.net + Coming(Posts(GroupsOf(md5, p), Pieces(p)), o == b, n.groups, privateGroup)
            && t.log == after
  {
    ComingExact(GroupsOf(md5, p), Pieces(p), o == b, n.groups, privateGroup);
    if o == b {
      CalledOnceIff(n.log, after, n.sinks, p.event.header.scope, p.event);
    }
  }

  /**
   * The multicasts and the calls of own sinks are the publication of a packet:
   * for the publishing bus and for every other one, wherever it is.
   */
  ghost predicate Publishes(md5: Hash, p: Packet, posted: seq<Posted>, sinks: set<Registration>,
                            before: multiset<(Registration, Event)>, after: multiset<(Registration, Event)>)
  {
    && (forall n: Node, o: nat, privateGroup |
          privateGroup !in GroupsOf(md5, p) && n.sinks == sinks && n.log == before ::
          NodeNext(md5, n, o, Publish(o, p)) == n.(log := after)
          && Coming(posted, true, n.groups, privateGroup) == multiset{})
    && (forall n: Node, b: nat, o: nat, privateGroup | privateGroup !in GroupsOf(md5, p) && b != o ::
          var t := NodeNext(md5, n, b, Publish(o, p));
          t.log == n.log && t.rx.net == n.rx.net + Coming(posted, false, n.groups, privateGroup))
  }

  lemma PostsPublish(md5: Hash, p: Packet, sinks: set<Registration>,
                     before: multiset<(Registration, Event)>, after: multiset<(Registration, Event)>)
    requires CalledOnce(before, after, sinks, p.event.header.scope, p.event)
    ensures Publishes(md5, p, Posts(GroupsOf(md5, p), Pieces(p)), sinks, before, after)
  {
    var posted := Posts(GroupsOf(md5, p), Pieces(p));
    CalledOnceIff(before, after, sinks, p.event.header.scope, p.event);
    forall n: Node, o: nat, privateGroup | privateGroup !in GroupsOf(md5, p) && n.sinks == sinks && n.log == before
      ensures NodeNext(md5, n, o, Publish(o, p)) == n.(log := after)
      ensures Coming(posted, true, n.groups, privateGroup) == multiset{}
    {
      ComingExact(GroupsOf(md5, p), Pieces(p), true, n.groups, privateGroup);
    }
    forall n: Node, b: nat, o: nat, privateGroup | privateGroup !in GroupsOf(md5, p) && b != o
      ensures var t := NodeNext(md5, n, b, Publish(o, p));
              t.log == n.log && t.rx.net == n.rx.net + Coming(posted, false, n.groups, privateGroup)
    {
      ComingExact(GroupsOf(md5, p), Pieces(p), false, n.groups, privateGroup);
    }
  }

  // ---------------------------------------------------------------- the invariant of a node

  ghost predicate DistinctKeys(published: seq<Publication>) {
    forall i, j | 0 <= i < j < |published| ::
      Key(published[i].packet.event.id) != Key(published[j].packet.event.id)
  }

  /** The event was published on this bus while it had the sink. */
  ghost predicate PublishedAt(published: seq<Publication>, b: nat, r: Registration, e: Event) {
    exists i :: 0 <= i < |published| && published[i].origin == b && published[i].packet.event == e
                && r in published[i].SinksOf(b)
  }

  /** The publication goes to this bus because of the sinks it had then. */
  predicate GoesTo(md5: Hash, pub: Publication, b: nat) {
    pub.origin != b && Addressed(md5, GroupsFor(md5, pub.SinksOf(b)), pub.packet)
  }

  ghost predicate Inbound(md5: Hash, published: seq<Publication>, b: nat, p: Packet) {
    exists i :: 0 <= i < |published| && published[i].packet == p && GoesTo(md5, published[i], b)
  }

  ghost predicate Lossless(rx: Channel.State) {
    rx.copied == multiset{} && rx.lost == multiset{} && rx.pruned == multiset{}
  }

  /** How often an event was received while the bus had the sink. */
  function Heard(out: seq<Notification>, heard: seq<set<Registration>>, r: Registration, e: Event): nat
    requires |out| == |heard|
  {
    if out == [] then 0
    else
      var n := |out| - 1;
      Heard(out[..n], heard[..n], r, e) + (if out[n] == Whole(e) && r in heard[n] then 1 else 0)
  }

  ghost function Expected(published: seq<Publication>, n: Node, b: nat, r: Registration, e: Event): nat
    requires |n.rx.out| == |n.heard|
  {
    if r.scope <= e.header.scope
    then Heard(n.rx.out, n.heard, r, e) + (if PublishedAt(published, b, r, e) then 1 else 0)
    else 0
  }

  ghost predicate LogExact(published: seq<Publication>, n: Node, b: nat)
    requires |n.rx.out| == |n.heard|
  {
    forall r, e :: n.log[(r, e)] == Expected(published, n, b, r, e)
  }

  ghost predicate SentInbound(md5: Hash, published: seq<Publication>, n: Node, b: nat) {
    forall p :: p in n.rx.sent <==> Inbound(md5, published, b, p)
  }

  ghost predicate NodeInv(md5: Hash, published: seq<Publication>, n: Node, b: nat) {
    && GroupsMatch(md5, n)
    && Channel.Inv(n.rx)
    && Lossless(n.rx)
    && |n.rx.out| == |n.heard|
    && SentInbound(md5, published, n, b)
    && LogExact(published, n, b)
  }

  lemma InboundGrows(md5: Hash, published: seq<Publication>, pub: Publication, b: nat, q: Packet)
    ensures Inbound(md5, published + [pub], b, q) <==>
            Inbound(md5, published, b, q) || (q == pub.packet && GoesTo(md5, pub, b))
  {
    var more := published + [pub];
    if Inbound(md5, published, b, q) {
      var i :| 0 <= i < |published| && published[i].packet == q && GoesTo(md5, published[i], b);
      assert more[i] == published[i];
    }
    if q == pub.packet && GoesTo(md5, pub, b) {
      assert more[|published|] == pub;
    }
  }

  lemma PublishedGrows(published: seq<Publication>, pub: Publication, b: nat, r: Registration, e: Event)
    requires FreshPacket(published, pub.packet)
    ensures PublishedAt(published + [pub], b, r, e) <==>
            PublishedAt(published, b, r, e) || (pub.origin == b && e == pub.packet.event && r in pub.SinksOf(b))
    ensures !(PublishedAt(published, b, r, e) && e == pub.packet.event)
  {
    var more := published + [pub];
    if PublishedAt(published, b, r, e) {
      var i :| 0 <= i < |published| && published[i].origin == b && published[i].packet.event == e
               && r in published[i].SinksOf(b);
      assert more[i] == published[i];
    }
    if pub.origin == b && e == pub.packet.event && r in pub.SinksOf(b) {
      assert more[|published|] == pub;
    }
  }

  lemma SentIsFresh(md5: Hash, published: seq<Publication>, n: Node, b: nat, p: Packet)
    requires SentInbound(md5, published, n, b) && FreshPacket(published, p)
    ensures Channel.FreshKey(n.rx.sent, p)
  {
    forall m | 0 <= m < |n.rx.sent| ensures Key(n.rx.sent[m].event.id) != Key(p.event.id) {
      assert n.rx.sent[m] in n.rx.sent;
      assert Inbound(md5, published, b, n.rx.sent[m]);
    }
  }

  lemma PublishKeepsLog(md5: Hash, published: seq<Publication>, n: Node, b: nat, pub: Publication)
    requires NodeInv(md5, published, n, b) && FreshPacket(published, pub.packet) && pub.SinksOf(b) == n.sinks
    ensures LogExact(published + [pub], NodeNext(md5, n, b, Publish(pub.origin, pub.packet)), b)
  {
    var p := pub.packet;
    var t := NodeNext(md5, n, b, Publish(pub.origin, p));
    forall r, e ensures t.log[(r, e)] == Expected(published + [pub], t, b, r, e) {
      assert n.log[(r, e)] == Expected(published, n, b, r, e);
      PublishedGrows(published, pub, b, r, e);
      DispatchCount(n.sinks, p.event.header.scope, p.event, r, e);
    }
  }

  lemma PublishKeepsSent(md5: Hash, published: seq<Publication>, n: Node, b: nat, pub: Publication)
    requires SentInbound(md5, published, n, b) && GroupsMatch(md5, n) && pub.SinksOf(b) == n.sinks
    ensures SentInbound(md5, published + [pub], NodeNext(md5, n, b, Publish(pub.origin, pub.packet)), b)
  {
    var t := NodeNext(md5, n, b, Publish(pub.origin, pub.packet));
    forall q ensures q in t.rx.sent <==> Inbound(md5, published + [pub], b, q) {
      InboundGrows(md5, published, pub, b, q);
      assert q in n.rx.sent <==> Inbound(md5, published, b, q);
    }
  }

  lemma PublishKeeps(md5: Hash, published: seq<Publication>, n: Node, b: nat, pub: Publication)
    requires NodeInv(md5, published, n, b) && FreshPacket(published, pub.packet) && WellCut(pub.packet)
    requires pub.SinksOf(b) == n.sinks
    ensures NodeInv(md5, published + [pub], NodeNext(md5, n, b, Publish(pub.origin, pub.packet)), b)
  {
    PublishKeepsLog(md5, published, n, b, pub);
    PublishKeepsSent(md5, published, n, b, pub);
    SentIsFresh(md5, published, n, b, pub.packet);
    Channel.StepKeepsInv(n.rx, Channel.Send(pub.packet));
  }

  /** Only the event of the arriving fragment can come out, and its sinks are called once. */
  lemma ArrivedExact(n: Node, f: Fragment, now: int, i: int)
    requires Channel.Inv(n.rx) && f in n.rx.net && 0 <= i < |n.rx.sent| && IsPieceOf(f, n.rx.sent[i])
    ensures var t := Arrived(n, f, now); var e := n.rx.sent[i].event;
            && t.sinks == n.sinks && t.groups == n.groups && t.rx.sent == n.rx.sent
            && t.rx == Channel.Next(n.rx, Channel.Deliver(f, now))
            && ((t.rx.out == n.rx.out && t.heard == n.heard && t.log == n.log)
                || (t.rx.out == n.rx.out + [Whole(e)] && t.heard == n.heard + [n.sinks]
                    && t.log == n.log + DispatchTo(n.sinks, e.header.scope, e)))
  {
    RoundTrip.DeliversItsEvent(n.rx, f, now, i);
  }

  lemma HeardGrows(out: seq<Notification>, heard: seq<set<Registration>>, x: Notification,
                   sinks: set<Registration>, r: Registration, e: Event)
    requires |out| == |heard|
    ensures Heard(out + [x], heard + [sinks], r, e)
         == Heard(out, heard, r, e) + if x == Whole(e) && r in sinks then 1 else 0
  {
    assert (out + [x])[..|out|] == out && (heard + [sinks])[..|out|] == heard;
  }

  lemma ArriveLogs(published: seq<Publication>, n: Node, b: nat, t: Node, e0: Event, r: Registration, e: Event)
    requires |n.rx.out| == |n.heard| && n.log[(r, e)] == Expected(published, n, b, r, e)
    requires t.rx.out == n.rx.out + [Whole(e0)] && t.heard == n.heard + [n.sinks]
    requires t.log == n.log + DispatchTo(n.sinks, e0.header.scope, e0)
    ensures t.log[(r, e)] == Expected(published, t, b, r, e)
  {
    DispatchCount(n.sinks, e0.header.scope, e0, r, e);
    HeardGrows(n.rx.out, n.heard, Whole(e0), n.sinks, r, e);
    assert Whole(e) == Whole(e0) <==> e == e0;
  }

  lemma ArriveKeepsLog(md5: Hash, published: seq<Publication>, n: Node, b: nat, f: Fragment, now: int, i: int)
    requires NodeInv(md5, published, n, b) && f in n.rx.net
    requires 0 <= i < |n.rx.sent| && IsPieceOf(f, n.rx.sent[i])
    ensures var t := Arrived(n, f, now); |t.rx.out| == |t.heard| && LogExact(published, t, b)
  {
    var t, e0 := Arrived(n, f, now), n.rx.sent[i].event;
    ArrivedExact(n, f, now, i);
    forall r, e ensures t.log[(r, e)] == Expected(published, t, b, r, e) {
      assert n.log[(r, e)] == Expected(published, n, b, r, e);
      if t.rx.out != n.rx.out {
        ArriveLogs(published, n, b, t, e0, r, e);
      }
    }
  }

  lemma ArriveKeeps(md5: Hash, published: seq<Publication>, n: Node, b: nat, f: Fragment, now: int)
    requires NodeInv(md5, published, n, b) && f in n.rx.net
    ensures NodeInv(md5, published, Arrived(n, f, now), b)
  {
    Channel.AccountedIsSent(n.rx, f);
    var i :| 0 <= i < |n.rx.sent| && IsPieceOf(f, n.rx.sent[i]);
    ArriveKeepsLog(md5, published, n, b, f, now, i);
    ArrivedExact(n, f, now, i);
    DeliverKeepsClean(n.rx, f, now);
    SameSent(md5, published, n, Arrived(n, f, now), b);
  }

  lemma DeliverKeepsClean(rx: Channel.State, f: Fragment, now: int)
    requires Channel.Inv(rx) && Lossless(rx) && f in rx.net
    ensures var t := Channel.Next(rx, Channel.Deliver(f, now)); Channel.Inv(t) && Lossless(t)
  {
    Channel.StepKeepsInv(rx, Channel.Deliver(f, now));
  }

  lemma SameSent(md5: Hash, published: seq<Publication>, n: Node, t: Node, b: nat)
    requires SentInbound(md5, published, n, b) && t.rx.sent == n.rx.sent
    ensures SentInbound(md5, published, t, b)
  {
    forall q ensures q in t.rx.sent <==> Inbound(md5, published, b, q) {
      assert q in n.rx.sent <==> Inbound(md5, published, b, q);
    }
  }

  /** Adding and removing sinks keeps the groups in step with them and touches nothing else. */
  lemma SinksKeep(md5: Hash, published: seq<Publication>, n: Node, b: nat, r: Registration)
    requires NodeInv(md5, published, n, b)
    ensures NodeInv(md5, published, Added(md5, n, r), b)
    ensures r in n.sinks ==> NodeInv(md5, published, Removed(md5, n, r), b)
  {
    AddedMatches(md5, n, r);
    SameRest(md5, published, n, Added(md5, n, r), b);
    if r in n.sinks {
      RemovedMatches(md5, n, r);
      SameRest(md5, published, n, Removed(md5, n, r), b);
    }
  }

  lemma AddedMatches(md5: Hash, n: Node, r: Registration)
    requires GroupsMatch(md5, n)
    ensures GroupsMatch(md5, Added(md5, n, r))
  {
    assert GroupsFor(md5, n.sinks + {r}) == GroupsFor(md5, n.sinks) + {ScopeToGroup(md5, r.scope)};
  }

  lemma RemovedMatches(md5: Hash, n: Node, r: Registration)
    requires GroupsMatch(md5, n) && r in n.sinks
    ensures GroupsMatch(md5, Removed(md5, n, r))
  {
    var t := Removed(md5, n, r);
    forall g ensures g in t.groups <==> g in GroupsFor(md5, t.sinks) {
      if g in n.groups {
        var q :| q in n.sinks && ScopeToGroup(md5, q.scope) == g;
        assert q in t.sinks || q == r;
      }
    }
  }

  lemma SameRest(md5: Hash, published: seq<Publication>, n: Node, t: Node, b: nat)
    requires NodeInv(md5, published, n, b) && GroupsMatch(md5, t)
    requires t.rx == n.rx && t.heard == n.heard && t.log == n.log
    ensures NodeInv(md5, published, t, b)
  {
    SameSent(md5, published, n, t, b);
    forall r, e ensures t.log[(r, e)] == Expected(published, t, b, r, e) {
      assert n.log[(r, e)] == Expected(published, n, b, r, e);
    }
  }

  ghost predicate Inv(md5: Hash, s: System) {
    DistinctKeys(s.published) && forall b | 0 <= b < |s.nodes| :: NodeInv(md5, s.published, s.nodes[b], b)
  }

  lemma StepKeepsNode(md5: Hash, s: System, step: Step, b: nat)
    requires Inv(md5, s) && Enabled(s, step) && b < |s.nodes|
    ensures NodeInv(md5, PublishedNext(s, step), NodeNext(md5, s.nodes[b], b, step), b)
  {
    var n := s.nodes[b];
    assert NodeInv(md5, s.published, n, b);
    match step
    case Publish(o, p) =>
      PublishKeeps(md5, s.published, n, b, PublishedNext(s, step)[|s.published|]);
    case Arrive(c, f, now) =>
      if c == b {
        ArriveKeeps(md5, s.published, n, b, f, now);
      }
    case AddSink(c, r) => SinksKeep(md5, s.published, n, b, r);
    case RemoveSink(c, r) => SinksKeep(md5, s.published, n, b, r);
  }

  lemma StepKeepsInv(md5: Hash, s: System, step: Step)
    requires Inv(md5, s) && Enabled(s, step)
    ensures Inv(md5, Next(md5, s, step))
  {
    var t := Next(md5, s, step);
    forall b | 0 <= b < |t.nodes| ensures NodeInv(md5, t.published, t.nodes[b], b) {
      StepKeepsNode(md5, s, step, b);
    }
  }

  lemma InitialInv(md5: Hash, n: Node, b: nat)
    requires InitialNode(md5, n)
    ensures NodeInv(md5, [], n, b)
  {
    Channel.RunKeepsInv([]);
  }

  lemma {:induction false} RunKeepsInv(md5: Hash, start: System, steps: seq<Step>)
    requires Allowed(md5, start, steps)
    ensures Inv(md5, After(md5, start, steps))
  {
    if steps == [] {
      forall b | 0 <= b < |start.nodes| ensures NodeInv(md5, start.published, start.nodes[b], b) {
        InitialInv(md5, start.nodes[b], b);
      }
    } else {
      var n := |steps| - 1;
      RunKeepsInv(md5, start, steps[..n]);
      StepKeepsInv(md5, After(md5, start, steps[..n]), steps[n]);
    }
  }

  // ---------------------------------------------------------------- exact routing

  /** A sink whose scope is a super-scope makes its bus a target, whatever the hash is. */
  lemma SuperScopeIsAddressed(md5: Hash, sinks: set<Registration>, r: Registration, p: Packet)
    requires r in sinks && r.scope <= p.event.header.scope
    ensures Addressed(md5, GroupsFor(md5, sinks), p)
  {
    var g := ScopeToGroup(md5, r.scope);
    NamesExact(md5, p.event.header.scope, g);
    assert g in GroupsOf(md5, p) * GroupsFor(md5, sinks);
  }

  /** How often a bus has received an event from the network. */
  lemma RemoteDeliveries(md5: Hash, s: System, b: nat, i: int)
    requires Inv(md5, s) && b < |s.nodes| && 0 <= i < |s.published|
    ensures var n := s.nodes[b]; var p := s.published[i].packet;
            multiset(n.rx.out)[Whole(p.event)] ==
            if GoesTo(md5, s.published[i], b) && !RoundTrip.UnderWay(n.rx, p) then 1 else 0
  {
    var n, p := s.nodes[b], s.published[i].packet;
    assert NodeInv(md5, s.published, n, b);
    if GoesTo(md5, s.published[i], b) {
      assert Inbound(md5, s.published, b, p);
      var m :| 0 <= m < |n.rx.sent| && n.rx.sent[m] == p;
      RoundTrip.FateDecides(n.rx, m);
    } else if Whole(p.event) in n.rx.out {
      OutIsInbound(md5, s, b, i);
    }
  }

  lemma OutIsInbound(md5: Hash, s: System, b: nat, i: int)
    requires Inv(md5, s) && b < |s.nodes| && 0 <= i < |s.published|
    requires Whole(s.published[i].packet.event) in s.nodes[b].rx.out
    ensures GoesTo(md5, s.published[i], b)
  {
    var n, p := s.nodes[b], s.published[i].packet;
    assert NodeInv(md5, s.published, n, b);
    var j := OutWasPublished(md5, s, b, Whole(p.event));
    assert Key(s.published[j].packet.event.id) == Key(p.event.id);
    assert i == j;
  }

  /** What a bus has received was published elsewhere. */
  lemma OutWasPublished(md5: Hash, s: System, b: nat, x: Notification) returns (j: int)
    requires Inv(md5, s) && b < |s.nodes| && x in s.nodes[b].rx.out
    ensures 0 <= j < |s.published| && GoesTo(md5, s.published[j], b) && x == Whole(s.published[j].packet.event)
  {
    var n := s.nodes[b];
    assert NodeInv(md5, s.published, n, b);
    assert Channel.Genuine(n.rx.sent, x);
    var m :| 0 <= m < |n.rx.sent| && x == Whole(n.rx.sent[m].event);
    assert n.rx.sent[m] in n.rx.sent;
    assert Inbound(md5, s.published, b, n.rx.sent[m]);
    j :| 0 <= j < |s.published| && s.published[j].packet == n.rx.sent[m] && GoesTo(md5, s.published[j], b);
  }

  lemma OneOrigin(published: seq<Publication>, b: nat, r: Registration, i: int)
    requires DistinctKeys(published) && 0 <= i < |published|
    ensures PublishedAt(published, b, r, published[i].packet.event) <==>
            published[i].origin == b && r in published[i].SinksOf(b)
  {
    var e := published[i].packet.event;
    if PublishedAt(published, b, r, e) {
      var j :| 0 <= j < |published| && published[j].origin == b && published[j].packet.event == e
               && r in published[j].SinksOf(b);
      assert i == j;
    }
  }

  /** The event was received at a time when the bus had the sink. */
  ghost predicate HeardBy(n: Node, r: Registration, e: Event)
    requires |n.rx.out| == |n.heard|
  {
    exists k :: 0 <= k < |n.rx.out| && n.rx.out[k] == Whole(e) && r in n.heard[k]
  }

  lemma {:induction false} HeardOnce(out: seq<Notification>, heard: seq<set<Registration>>, r: Registration, e: Event)
    requires |out| == |heard| && multiset(out)[Whole(e)] <= 1
    ensures Heard(out, heard, r, e)
         == if exists k :: 0 <= k < |out| && out[k] == Whole(e) && r in heard[k] then 1 else 0
  {
    if out == [] {
    } else {
      var n := |out| - 1;
      assert out == out[..n] + [out[n]];
      HeardOnce(out[..n], heard[..n], r, e);
      if out[n] == Whole(e) {
        assert Whole(e) !in multiset(out[..n]);
      }
      if k :| 0 <= k < |out| && out[k] == Whole(e) && r in heard[k] {
        assert k < n ==> out[..n][k] == Whole(e) && r in heard[..n][k];
      }
    }
  }

  /**
   * At every moment of every run, with sinks coming and going and for any
   * scope-to-group function: a published event has reached a sink exactly once
   * if the sink's scope is a super-scope of the event's or the same and the
   * bus had the sink when it published or received the event, and otherwise
   * never. It has been received by the other buses that had a sink in one of
   * its groups when it was published, once all of it has arrived.
   */
  lemma ExactRouting(md5: Hash, start: System, steps: seq<Step>, b: nat, r: Registration, i: int)
    requires Allowed(md5, start, steps)
    requires b < |After(md5, start, steps).nodes| && 0 <= i < |After(md5, start, steps).published|
    ensures var s := After(md5, start, steps); var n := s.nodes[b]; var pub := s.published[i];
            var e := pub.packet.event;
            && |n.rx.out| == |n.heard|
            && n.log[(r, e)] == (if r.scope <= e.header.scope
                                    && (if pub.origin == b then r in pub.SinksOf(b) else HeardBy(n, r, e))
                                 then 1 else 0)
            && (Whole(e) in n.rx.out <==> GoesTo(md5, pub, b) && !RoundTrip.UnderWay(n.rx, pub.packet))
  {
    var s := After(md5, start, steps);
    RunKeepsInv(md5, start, steps);
    var n, p := s.nodes[b], s.published[i].packet;
    assert NodeInv(md5, s.published, n, b);
    assert n.log[(r, p.event)] == Expected(s.published, n, b, r, p.event);
    RemoteDeliveries(md5, s, b, i);
    OneOrigin(s.published, b, r, i);
    HeardOnce(n.rx.out, n.heard, r, p.event);
  }

  // ---------------------------------------------------------------- sinks that stay

  /** Nobody adds or removes the sink after the first m steps. */
  predicate Untouched(steps: seq<Step>, m: nat, b: nat, r: Registration) {
    forall l | m <= l < |steps| :: steps[l] != AddSink(b, r) && steps[l] != RemoveSink(b, r)
  }

  lemma {:induction false} PrefixAllowed(md5: Hash, start: System, steps: seq<Step>, m: nat)
    requires Allowed(md5, start, steps) && m <= |steps|
    ensures Allowed(md5, start, steps[..m])
    decreases |steps|
  {
    if m == |steps| {
      assert steps[..m] == steps;
    } else {
      PrefixAllowed(md5, start, steps[..|steps| - 1], m);
      assert steps[..|steps| - 1][..m] == steps[..m];
    }
  }

  /** The later system has more published and received, all of it while the sink was there, or not. */
  ghost predicate Since(s: System, t: System, b: nat, r: Registration) {
    && b < |s.nodes| == |t.nodes|
    && (r in s.nodes[b].sinks <==> r in t.nodes[b].sinks)
    && s.published <= t.published && s.nodes[b].rx.out <= t.nodes[b].rx.out
    && |t.nodes[b].rx.out| == |t.nodes[b].heard|
    && (forall i | |s.published| <= i < |t.published| ::
          r in t.published[i].SinksOf(b) <==> r in s.nodes[b].sinks)
    && (forall k | |s.nodes[b].rx.out| <= k < |t.nodes[b].heard| ::
          r in t.nodes[b].heard[k] <==> r in s.nodes[b].sinks)
  }

  /** A step of another sink keeps this one, and what is received is received with the present sinks. */
  lemma NodeSince(md5: Hash, published: seq<Publication>, n: Node, b: nat, step: Step, r: Registration)
    requires NodeInv(md5, published, n, b) && (step.Arrive? && step.node == b ==> step.fragment in n.rx.net)
    requires step != AddSink(b, r) && step != RemoveSink(b, r)
    ensures var t := NodeNext(md5, n, b, step);
            && (r in t.sinks <==> r in n.sinks)
            && n.rx.out <= t.rx.out && |t.rx.out| == |t.heard|
            && (t.heard == n.heard || t.heard == n.heard + [n.sinks])
  {
    if step.Arrive? && step.node == b {
      Channel.AccountedIsSent(n.rx, step.fragment);
      var i :| 0 <= i < |n.rx.sent| && IsPieceOf(step.fragment, n.rx.sent[i]);
      ArrivedExact(n, step.fragment, step.now, i);
    }
  }

  lemma StepSince(md5: Hash, s: System, t: System, step: Step, b: nat, r: Registration)
    requires Inv(md5, t) && Enabled(t, step) && Since(s, t, b, r)
    requires step != AddSink(b, r) && step != RemoveSink(b, r)
    ensures Since(s, Next(md5, t, step), b, r)
  {
    assert NodeInv(md5, t.published, t.nodes[b], b);
    NodeSince(md5, t.published, t.nodes[b], b, step, r);
  }

  lemma {:induction false} RunSince(md5: Hash, start: System, steps: seq<Step>, m: nat, b: nat, r: Registration)
    requires Allowed(md5, start, steps) && m <= |steps| && Untouched(steps, m, b, r)
    requires b < |After(md5, start, steps).nodes|
    ensures Allowed(md5, start, steps[..m])
    ensures Since(After(md5, start, steps[..m]), After(md5, start, steps), b, r)
    decreases |steps|
  {
    PrefixAllowed(md5, start, steps, m);
    RunKeepsInv(md5, start, steps);
    if m == |steps| {
      assert steps[..m] == steps;
      assert NodeInv(md5, After(md5, start, steps).published, After(md5, start, steps).nodes[b], b);
    } else {
      var n := |steps| - 1;
      assert steps[..n][..m] == steps[..m];
      RunSince(md5, start, steps[..n], m, b, r);
      RunKeepsInv(md5, start, steps[..n]);
      StepSince(md5, After(md5, start, steps[..m]), After(md5, start, steps[..n]), steps[n], b, r);
    }
  }

  /** What was received before an event was published is not that event. */
  lemma ReceivedLater(md5: Hash, s: System, t: System, b: nat, r: Registration, i: int, k: int)
    requires Inv(md5, s) && Inv(md5, t) && Since(s, t, b, r)
    requires |s.published| <= i < |t.published| && 0 <= k < |t.nodes[b].rx.out|
    requires t.nodes[b].rx.out[k] == Whole(t.published[i].packet.event)
    ensures k >= |s.nodes[b].rx.out|
  {
    if k < |s.nodes[b].rx.out| {
      assert s.nodes[b].rx.out[k] in s.nodes[b].rx.out;
      var j := OutWasPublished(md5, s, b, s.nodes[b].rx.out[k]);
    }
  }

  /**
   * A sink that is neither added nor removed after m steps gets each event
   * that is published from then on exactly once if it is registered in a
   * super-scope or the scope itself, as soon as all of the event has arrived
   * or at once on the publishing bus, and otherwise never.
   */
  lemma StableSink(md5: Hash, start: System, steps: seq<Step>, m: nat, b: nat, r: Registration, i: int)
    requires Allowed(md5, start, steps) && m <= |steps| && Untouched(steps, m, b, r)
    requires b < |After(md5, start, steps).nodes|
    requires Allowed(md5, start, steps[..m])
    requires |After(md5, start, steps[..m]).published| <= i < |After(md5, start, steps).published|
    ensures var s := After(md5, start, steps); var n := s.nodes[b]; var e := s.published[i].packet.event;
            n.log[(r, e)] ==
            if r in n.sinks && r.scope <= e.header.scope
               && (s.published[i].origin == b || !RoundTrip.UnderWay(n.rx, s.published[i].packet)) then 1 else 0
  {
    var s, t := After(md5, start, steps[..m]), After(md5, start, steps);
    var n, pub := t.nodes[b], t.published[i];
    var e := pub.packet.event;
    RunSince(md5, start, steps, m, b, r);
    RunKeepsInv(md5, start, steps[..m]);
    RunKeepsInv(md5, start, steps);
    ExactRouting(md5, start, steps, b, r, i);
    assert r in pub.SinksOf(b) <==> r in n.sinks;
    forall k | 0 <= k < |n.rx.out| && n.rx.out[k] == Whole(e) ensures r in n.heard[k] <==> r in n.sinks {
      ReceivedLater(md5, s, t, b, r, i, k);
    }
    if r in n.sinks && r.scope <= e.header.scope {
      SuperScopeIsAddressed(md5, pub.SinksOf(b), r, pub.packet);
    }
  }

  /** Sinks are never called with anything that has not been published. */
  lemma NothingElse(md5: Hash, start: System, steps: seq<Step>, b: nat, r: Registration, e: Event)
    requires Allowed(md5, start, steps) && b < |After(md5, start, steps).nodes|
    requires (r, e) in After(md5, start, steps).nodes[b].log
    ensures var published := After(md5, start, steps).published;
            exists i :: 0 <= i < |published| && published[i].packet.event == e
  {
    var s := After(md5, start, steps);
    RunKeepsInv(md5, start, steps);
    var n := s.nodes[b];
    assert NodeInv(md5, s.published, n, b);
    assert n.log[(r, e)] == Expected(s.published, n, b, r, e);
    if Heard(n.rx.out, n.heard, r, e) > 0 {
      HeardIsReceived(n.rx.out, n.heard, r, e);
      var j := OutWasPublished(md5, s, b, Whole(e));
      assert s.published[j].packet.event == e;
    }
  }

  lemma {:induction false} HeardIsReceived(out: seq<Notification>, heard: seq<set<Registration>>,
                                           r: Registration, e: Event)
    requires |out| == |heard| && Heard(out, heard, r, e) > 0
    ensures Whole(e) in out
  {
    var n := |out| - 1;
    if out[n] == Whole(e) {
    } else {
      HeardIsReceived(out[..n], heard[..n], r, e);
    }
  }
}
