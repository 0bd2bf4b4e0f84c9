/** Sharing of buses between the connectors that a factory creates. */
module Factory {
  import opened Wire

  datatype HostAndPort = HostAndPort(host: string, port: nat)

  /**
   * `buses` holds weak references; `live` are the buses that some shared reference
   * keeps alive, with the options they were created for.
   */
  datatype State = State(buses: map<HostAndPort, nat>, live: map<nat, HostAndPort>, next: nat)

  const INIT := State(map[], map[], 0)

  datatype Step =
    | Obtain(options: HostAndPort, connects: bool)
    | Drop(bus: nat)

  /** The weak reference for these options can be locked. */
  predicate Lockable(s: State, options: HostAndPort) {
    options in s.buses && s.buses[options] in s.live
  }

  function Next(s: State, step: Step): State {
    match step
    case Obtain(o, connects) =>
      if Lockable(s, o) then s
      else if !connects then s.(buses := s.buses - {o}, next := s.next + 1)
      else State(s.buses[o := s.next], s.live[s.next := o], s.next + 1)
    case Drop(b) => s.(live := s.live - {b})
  }

  /** The bus that `obtainBus` returns, if it does not throw. */
  function Obtained(s: State, o: HostAndPort, connects: bool): Result<nat> {
    if Lockable(s, o) then Ok(s.buses[o]) else if connects then Ok(s.next) else Err(CommError)
  }

  function After(steps: seq<Step>): State {
    if steps == [] then INIT else Next(After(steps[..|steps| - 1]), steps[|steps| - 1])
  }

  /** Every live bus is the one registered for its options. */
  ghost predicate Inv(s: State) {
    && (forall b | b in s.live :: b < s.next && s.live[b] in s.buses && s.buses[s.live[b]] == b)
    && (forall o | o in s.buses :: s.buses[o] < s.next)
    && (forall o, q | o in s.buses && q in s.buses && s.buses[o] == s.buses[q] :: o == q)
  }

  lemma {:induction false} RunKeepsInv(steps: seq<Step>)
    ensures Inv(After(steps))
  {
    if steps == [] {
    } else {
      RunKeepsInv(steps[..|steps| - 1]);
    }
  }

  /**
   * Over any run of calls, failing activations and dying buses: there is at
   * most one live bus for the same options, obtaining them again while it
   * lives returns it, and a bus is only ever returned for its own options.
   * Obtaining fails only if there is none and activating a new one fails.
   */
  lemma OneLiveBusEach(steps: seq<Step>, o: HostAndPort, connects: bool)
    ensures var s := After(steps); var t := Next(s, Obtain(o, connects)); var r := Obtained(s, o, connects);
            && (forall a, b | a in s.live && b in s.live && s.live[a] == s.live[b] :: a == b)
            && (forall b | b in s.live && s.live[b] == o :: r == Ok(b) && t == s)
            && (r.Ok? ==> r.value in t.live && t.live[r.value] == o)
            && (r.Err? <==> !connects && forall b | b in s.live :: s.live[b] != o)
            && (r.Err? ==> r == Err(CommError) && t.live == s.live)
            && (r.Ok? ==> t.live == s.live || (r.value !in s.live && t.live == s.live[r.value := o]))
            && (forall b | b in s.live :: b in t.live && t.live[b] == s.live[b])
  {
    RunKeepsInv(steps);
  }

  /** A bus that dies is the only one that is not alive any more, and later obtained by a new one. */
  lemma DroppedIsReplaced(steps: seq<Step>, b: nat, connects: bool)
    requires b in After(steps).live
    ensures var s := After(steps); var t := Next(s, Drop(b)); var r := Obtained(t, s.live[b], connects);
            && (forall x :: x in t.live <==> x in s.live && x != b)
            && (forall x | x in t.live :: t.live[x] == s.live[x])
            && (r.Ok? <==> connects) && (r.Ok? ==> r.value !in s.live)
  {
    RunKeepsInv(steps);
  }

  class Factory {
    var buses: map<HostAndPort, nat>
    var live: map<nat, HostAndPort>
    var next: nat

    constructor ()
      ensures Contents() == INIT
    {
      buses, live, next := map[], map[], 0;
    }

    function Contents(): State
      reads this
    {
      State(buses, live, next)
    }

    method ObtainBus(options: HostAndPort, connects: bool) returns (r: Result<nat>)
      modifies this
      ensures Contents() == Next(old(Contents()), Obtain(options, connects))
      ensures r == Obtained(old(Contents()), options, connects)
    {
      if options in buses {
        var bus := buses[options];
        if bus in live {
          return Ok(bus);
        } else {
          buses := buses - {options};
        }
      }
      var bus := next;
      next := next + 1;
      if !connects {
        return Err(CommError);
      }
      live := live[bus := options];
      buses := buses[options := bus];
      return Ok(bus);
    }
  }
}
