/** The Spread connection of a bus and the reference-counted memberships on it. */
module Connection {
  import opened Wire
  import opened Membership

  /** A message as `receive` sees it; the body is what the parser makes of the bytes, if anything. */
  datatype SpreadMessage = Regular(groups: set<string>, body: Option<Fragment>) | MembershipInfo

  /** A multicast handed to the daemon. */
  datatype Posted = Posted(groups: set<string>, body: Option<Fragment>, selfDiscard: bool)

  /**
   * The rule of the Spread daemon: a message goes to each connection that is in
   * one of its groups, every connection being alone in its private group, except
   * back to the sender of a message that discards itself.
   */
  predicate Reaches(m: Posted, fromSelf: bool, joined: set<string>, privateGroup: string) {
    m.groups * (joined + {privateGroup}) != {} && !(fromSelf && m.selfDiscard)
  }

  /** The wake-up message that `interruptReceive` posts. */
  function WakeUp(privateGroup: string): Posted {
    Posted({privateGroup}, None, false)
  }

  /** What `receive` makes of a message: the wake-up message interrupts. */
  function Interpret(privateGroup: string, m: SpreadMessage): Result<SpreadMessage> {
    if m.Regular? && m.groups == {privateGroup} then Err(Interrupted) else Ok(m)
  }

  /** Only a regular message to the private group alone interrupts; any other is handed on as it is. */
  lemma InterpretExact(privateGroup: string, m: SpreadMessage)
    ensures m.Regular? && m.groups == {privateGroup} ==> Interpret(privateGroup, m) == Err(Interrupted)
    ensures m.MembershipInfo? || m.groups != {privateGroup} ==> Interpret(privateGroup, m) == Ok(m)
  {
  }

  /** The wake-up message reaches its own sender, which it could not with `SELF_DISCARD`. */
  lemma WakeUpComesBack(privateGroup: string, joined: set<string>)
    ensures Reaches(WakeUp(privateGroup), true, joined, privateGroup)
    ensures !Reaches(WakeUp(privateGroup).(selfDiscard := true), true, joined, privateGroup)
    ensures Interpret(privateGroup, Regular(WakeUp(privateGroup).groups, None)) == Err(Interrupted)
  {
    assert privateGroup in {privateGroup} * (joined + {privateGroup});
  }

  class SpreadConnection {
    var connected: bool
    var privateGroup: string
    /** The groups in which the daemon has this connection. */
    var joined: set<string>
    var posted: seq<Posted>
    var mailbox: seq<SpreadMessage>

    constructor ()
      ensures !connected && joined == {} && posted == [] && mailbox == []
    {
      connected, privateGroup, joined, posted, mailbox := false, "", {}, [], [];
    }

    /** The exception of a call that needs the daemon, if it throws one. */
    function Trouble(daemonOk: bool): Option<Error>
      reads this
    {
      if !connected then Some(IllegalState) else if !daemonOk then Some(CommError) else None
    }

    method Activate(daemonOk: bool, group: string) returns (r: Result<bool>)
      modifies this
      ensures if old(connected) then r == Err(IllegalState) && unchanged(this)
              else if !daemonOk then r == Err(CommError) && unchanged(this)
              else r.Ok? && connected && privateGroup == group && joined == {} && mailbox == [] && posted == old(posted)
    {
      if connected {
        return Err(IllegalState);
      }
      if !daemonOk {
        return Err(CommError);
      }
      privateGroup, joined, mailbox := group, {}, [];
      connected := true;
      return Ok(true);
    }

    method Deactivate() returns (r: Result<bool>)
      modifies this
      ensures if old(connected) then r.Ok? && !connected && joined == {} && posted == old(posted)
              else r == Err(IllegalState) && unchanged(this)
    {
      if !connected {
        return Err(IllegalState);
      }
      joined := {};
      connected := false;
      return Ok(true);
    }

    method Join(group: string, daemonOk: bool) returns (e: Option<Error>)
      modifies this`joined
      ensures e == Trouble(daemonOk)
      ensures e == if !connected then Some(IllegalState) else if !daemonOk then Some(CommError) else None
      ensures joined == if e.None? then old(joined) + {group} else old(joined)
    {
      e := Trouble(daemonOk);
      if e.None? {
        joined := joined + {group};
      }
    }

    method Leave(group: string, daemonOk: bool) returns (e: Option<Error>)
      modifies this`joined
      ensures e == Trouble(daemonOk)
      ensures e == if !connected then Some(IllegalState) else if !daemonOk then Some(CommError) else None
      ensures joined == if e.None? then old(joined) - {group} else old(joined)
    {
      e := Trouble(daemonOk);
      if e.None? {
        joined := joined - {group};
      }
    }

    /** What `receive` is going to return or throw. */
    function Upcoming(daemonOk: bool): Result<SpreadMessage>
      requires connected && daemonOk ==> mailbox != []
      reads this
    {
      if Trouble(daemonOk).Some? then Err(Trouble(daemonOk).value) else Interpret(privateGroup, mailbox[0])
    }

    /** Takes the next message, once there is one. */
    method Receive(daemonOk: bool) returns (r: Result<SpreadMessage>)
      requires connected && daemonOk ==> mailbox != []
      modifies this`mailbox
      ensures r == old(Upcoming(daemonOk))
      ensures !connected ==> r == Err(IllegalState) && mailbox == old(mailbox)
      ensures connected && !daemonOk ==> r == Err(CommError) && mailbox == old(mailbox)
      ensures connected && daemonOk ==>
                var m := old(mailbox)[0];
                && mailbox == old(mailbox)[1..]
                && (m.Regular? && m.groups == {privateGroup} ==> r == Err(Interrupted))
                && (m.MembershipInfo? || m.groups != {privateGroup} ==> r == Ok(m))
    {
      if !connected {
        return Err(IllegalState);
      }
      if !daemonOk {
        return Err(CommError);
      }
      var m := mailbox[0];
      mailbox := mailbox[1..];
      if m.Regular? && |m.groups| == 1 && privateGroup in m.groups {
        Singleton(m.groups, privateGroup);
        return Err(Interrupted);
      }
      return Ok(m);
    }

    method Send(groups: set<string>, body: Option<Fragment>, daemonOk: bool) returns (e: Option<Error>)
      modifies this`posted
      ensures e == if !connected then Some(IllegalState)
                   else if groups == {} || !daemonOk then Some(CommError) else None
      ensures posted == if e.None? then old(posted) + [Posted(groups, body, true)] else old(posted)
    {
      if !connected {
        return Some(IllegalState);
      }
      if groups == {} || !daemonOk {
        return Some(CommError);
      }
      posted := posted + [Posted(groups, body, true)];
      return None;
    }

    /** The result of the multicast is not looked at, so a refusal by the daemon goes unnoticed. */
    method InterruptReceive(daemonOk: bool) returns (r: Result<bool>)
      modifies this`posted
      ensures if connected then r == Ok(true) else r == Err(IllegalState)
      ensures posted == if connected && daemonOk then old(posted) + [WakeUp(privateGroup)] else old(posted)
    {
      if !connected {
        return Err(IllegalState);
      }
      if daemonOk {
        posted := posted + [WakeUp(privateGroup)];
      }
      return Ok(true);
    }
  }

  lemma Singleton(s: set<string>, x: string)
    requires x in s
    ensures |s| == 1 <==> s == {x}
  {
    if |s| == 1 {
      assert |s - {x}| == 0;
    }
  }

  class MembershipManager {
    const connection: SpreadConnection
    var groups: map<string, Count>

    constructor (connection: SpreadConnection)
      ensures this.connection == connection && groups == map[]
    {
      this.connection := connection;
      groups := map[];
    }

    ghost function State(): Members
      reads this, connection
    {
      Members(groups, connection.joined)
    }

    method Join(group: string, daemonOk: bool) returns (e: Option<Error>)
      modifies this, connection`joined
      ensures (State(), e) == JoinGroup(old(State()), group, connection.Trouble(daemonOk))
    {
      if group !in groups {
        e := connection.Join(group, daemonOk);
        if e.None? {
          groups := groups[group := 1];
        }
      } else {
        groups := groups[group := groups[group] + 1];
        e := None;
      }
    }

    method Leave(group: string, daemonOk: bool) returns (e: Option<Error>)
      requires group in groups
      modifies this, connection`joined
      ensures (State(), e) == LeaveGroup(old(State()), group, connection.Trouble(daemonOk))
    {
      e := None;
      var count: int := groups[group];
      count := count - 1;
      if count == 0 {
        groups := groups - {group};
        e := connection.Leave(group, daemonOk);
      } else {
        groups := groups[group := count];
      }
    }
  }
}
