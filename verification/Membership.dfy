/** Reference-counted group memberships and the life cycle of in-connectors. */
module Membership {
  import opened Wire
  import opened GroupNames

  type Count = n: int | n >= 1 witness 1

  /** The counts of the manager and the groups the daemon has the connection in. */
  datatype Members = Members(counts: map<string, Count>, joined: set<string>)

  /** `MembershipManager::join`; `error` is what the connection throws when it is asked to join. */
  function JoinGroup(m: Members, g: string, error: Option<Error>): (Members, Option<Error>) {
    if g in m.counts then (m.(counts := m.counts[g := m.counts[g] + 1]), None)
    else if error.Some? then (m, error)
    else (Members(m.counts[g := 1], m.joined + {g}), None)
  }

  /** `MembershipManager::leave`, which asserts that the group is counted. */
  function LeaveGroup(m: Members, g: string, error: Option<Error>): (Members, Option<Error>)
    requires g in m.counts
  {
    if m.counts[g] > 1 then (m.(counts := m.counts[g := m.counts[g] - 1]), None)
    else if error.Some? then (m.(counts := m.counts - {g}), error)
    else (Members(m.counts - {g}, m.joined - {g}), None)
  }

  datatype Registration = Registration(scope: Scope, sink: nat)

  /** What the connectors of a bus share. */
  datatype Hub = Hub(sinks: set<Registration>, members: Members)

  datatype Connector = Connector(scope: Scope, active: bool)

  datatype Outcome = Done | Thrown(error: Error) | AssertionFailed

  function ActivateConnector(md5: Hash, id: nat, c: Connector, h: Hub, error: Option<Error>):
    (Connector, Hub, Outcome)
  {
    if c.active then (c, h, Thrown(IllegalState))
    else
      var (m, e) := JoinGroup(h.members, ScopeToGroup(md5, c.scope), error);
      if e.Some? then (c, h.(members := m), Thrown(e.value))
      else (c.(active := true), Hub(h.sinks + {Registration(c.scope, id)}, m), Done)
  }

  function DeactivateConnector(md5: Hash, id: nat, c: Connector, h: Hub, error: Option<Error>):
    (Connector, Hub, Outcome)
  {
    var g := ScopeToGroup(md5, c.scope);
    var sinks := h.sinks - {Registration(c.scope, id)};
    if !c.active then (c, h, Thrown(IllegalState))
    else if g !in h.members.counts then (c, h.(sinks := sinks), AssertionFailed)
    else
      var (m, e) := LeaveGroup(h.members, g, error);
      if e.Some? then (c, Hub(sinks, m), Thrown(e.value))
      else (c.(active := false), Hub(sinks, m), Done)
  }

  /**
   * Activating an inactive connector works exactly if its group is counted
   * already or the connection lets it join. Then the connector is active, its
   * sink registered, and its group joined and counted once more; otherwise the
   * exception of the connection comes and nothing has changed.
   */
  lemma ActivateExact(md5: Hash, id: nat, c: Connector, h: Hub, error: Option<Error>)
    requires h.members.joined == h.members.counts.Keys
    ensures var (d, k, o) := ActivateConnector(md5, id, c, h, error); var g := ScopeToGroup(md5, c.scope);
            if c.active then d == c && k == h && o == Thrown(IllegalState)
            else
              && (o == Done <==> g in h.members.counts || error == None)
              && (o == Done ==>
                    && d == Connector(c.scope, true)
                    && k.sinks == h.sinks + {Registration(c.scope, id)}
                    && k.members.joined == h.members.joined + {g}
                    && g in k.members.counts
                    && k.members.counts[g] == 1 + (if g in h.members.counts then h.members.counts[g] else 0)
                    && (forall x | x != g :: x in k.members.counts <==> x in h.members.counts)
                    && (forall x | x != g && x in h.members.counts :: k.members.counts[x] == h.members.counts[x]))
              && (o != Done ==> d == c && k == h && o == Thrown(error.value))
  {
  }

  /**
   * Deactivating an active connector whose group is counted unregisters its
   * sink in any case. Only the last one in a group makes the connection leave
   * it, which is the only way to fail: then the group is not counted any more
   * but still joined, and the connector still active.
   */
  lemma DeactivateExact(md5: Hash, id: nat, c: Connector, h: Hub, error: Option<Error>)
    requires var g := ScopeToGroup(md5, c.scope); c.active ==> g in h.members.counts
    ensures var (d, k, o) := DeactivateConnector(md5, id, c, h, error); var g := ScopeToGroup(md5, c.scope);
            if !c.active then d == c && k == h && o == Thrown(IllegalState)
            else
              var last := h.members.counts[g] == 1;
              && (o == Done <==> !last || error == None)
              && (o != Done ==> o == Thrown(error.value))
              && d == Connector(c.scope, o != Done)
              && k.sinks == h.sinks - {Registration(c.scope, id)}
              && k.members.joined == h.members.joined - (if last && o == Done then {g} else {})
              && (g in k.members.counts <==> !last)
              && (!last ==> k.members.counts[g] == h.members.counts[g] - 1)
              && (forall x | x != g :: x in k.members.counts <==> x in h.members.counts)
              && (forall x | x != g && x in h.members.counts :: k.members.counts[x] == h.members.counts[x])
  {
  }

  // ---------------------------------------------------------------- runs over all connectors

  datatype State = State(connectors: map<nat, Connector>, hub: Hub)

  datatype Step =
    | Activate(id: nat, error: Option<Error>)
    | Deactivate(id: nat, error: Option<Error>)
    | SetScope(id: nat, scope: Scope)

  /** `setScope` demands an inactive connector; the other calls are always possible. */
  predicate Enabled(s: State, step: Step) {
    step.id in s.connectors && (step.SetScope? ==> !s.connectors[step.id].active)
  }

  function Next(md5: Hash, s: State, step: Step): (State, Outcome)
    requires Enabled(s, step)
  {
    var c := s.connectors[step.id];
    match step
    case Activate(id, error) =>
      var (d, h, o) := ActivateConnector(md5, id, c, s.hub, error);
      (State(s.connectors[id := d], h), o)
    case Deactivate(id, error) =>
      var (d, h, o) := DeactivateConnector(md5, id, c, s.hub, error);
      (State(s.connectors[id := d], h), o)
    case SetScope(id, scope) =>
      (s.(connectors := s.connectors[id := c.(scope := scope)]), Done)
  }

  /** A step concerns one connector, and setting a scope that alone. */
  lemma StepTouches(md5: Hash, s: State, step: Step, id: nat)
    requires step.id in s.connectors && (step.SetScope? ==> !s.connectors[step.id].active)
    ensures Enabled(s, step)
    ensures var t := Next(md5, s, step).0;
            && t.connectors.Keys == s.connectors.Keys
            && (id != step.id && id in s.connectors ==> t.connectors[id] == s.connectors[id])
            && (!step.SetScope? ==> t.connectors[step.id].scope == s.connectors[step.id].scope)
            && (step.SetScope? ==> t.connectors[step.id] == Connector(step.scope, false) && t.hub == s.hub)
  {
  }

  /** The active connectors whose scope maps to a group. */
  function ActiveIn(md5: Hash, connectors: map<nat, Connector>, g: string): set<nat> {
    set c | c in connectors && connectors[c].active && ScopeToGroup(md5, connectors[c].scope) == g
  }

  function ActiveSinks(connectors: map<nat, Connector>): set<Registration> {
    set c | c in connectors && connectors[c].active :: Registration(connectors[c].scope, c)
  }

  lemma ActiveSinksExact(connectors: map<nat, Connector>)
    ensures forall r :: r in ActiveSinks(connectors) <==>
              r.sink in connectors && connectors[r.sink] == Connector(r.scope, true)
  {
    forall r
      ensures r in ActiveSinks(connectors) <==>
                r.sink in connectors && connectors[r.sink] == Connector(r.scope, true)
    {
      if r.sink in connectors && connectors[r.sink] == Connector(r.scope, true) {
        assert r == Registration(connectors[r.sink].scope, r.sink);
      }
    }
  }

  ghost predicate Mirrored(md5: Hash, s: State, g: string) {
    if g in s.hub.members.counts then s.hub.members.counts[g] == |ActiveIn(md5, s.connectors, g)|
    else ActiveIn(md5, s.connectors, g) == {}
  }

  /** The counts mirror the active connectors, and the connection is in the counted groups. */
  ghost predicate Inv(md5: Hash, s: State) {
    && (forall g :: Mirrored(md5, s, g))
    && s.hub.members.joined == s.hub.members.counts.Keys
    && s.hub.sinks == ActiveSinks(s.connectors)
  }

  /** The step asks the daemon to leave a group, and the daemon refuses. */
  predicate LeaveFails(md5: Hash, s: State, step: Step) {
    && step.Deactivate? && step.error.Some?
    && step.id in s.connectors && s.connectors[step.id].active
    && var g := ScopeToGroup(md5, s.connectors[step.id].scope);
       g in s.hub.members.counts && s.hub.members.counts[g] == 1
  }

  lemma ActivateChanges(md5: Hash, s: State, id: nat, g: string)
    requires id in s.connectors && !s.connectors[id].active
    ensures var after := s.connectors[id := s.connectors[id].(active := true)];
            ActiveIn(md5, after, g) == ActiveIn(md5, s.connectors, g)
              + (if ScopeToGroup(md5, s.connectors[id].scope) == g then {id} else {})
    ensures id !in ActiveIn(md5, s.connectors, g)
  {
  }

  lemma DeactivateChanges(md5: Hash, s: State, id: nat, g: string)
    requires id in s.connectors && s.connectors[id].active
    ensures var after := s.connectors[id := s.connectors[id].(active := false)];
            ActiveIn(md5, after, g) == ActiveIn(md5, s.connectors, g) - {id}
    ensures id in ActiveIn(md5, s.connectors, g) <==> ScopeToGroup(md5, s.connectors[id].scope) == g
  {
  }

  lemma ActivateKeeps(md5: Hash, s: State, id: nat, error: Option<Error>)
    requires Inv(md5, s) && Enabled(s, Activate(id, error))
    ensures Inv(md5, Next(md5, s, Activate(id, error)).0)
  {
    var t := Next(md5, s, Activate(id, error)).0;
    var c := s.connectors[id];
    if c.active || t.hub == s.hub {
      assert t == s;
    } else {
      ActiveSinksExact(s.connectors);
      ActiveSinksExact(t.connectors);
      forall g ensures Mirrored(md5, t, g) {
        assert Mirrored(md5, s, g);
        ActivateChanges(md5, s, id, g);
      }
    }
  }

  lemma DeactivateKeeps(md5: Hash, s: State, id: nat, error: Option<Error>)
    requires Inv(md5, s) && Enabled(s, Deactivate(id, error))
    requires !LeaveFails(md5, s, Deactivate(id, error))
    ensures Inv(md5, Next(md5, s, Deactivate(id, error)).0)
  {
    var t := Next(md5, s, Deactivate(id, error)).0;
    if !s.connectors[id].active {
      assert t == s;
    } else {
      NeverAsserts(md5, s, Deactivate(id, error));
      ActiveSinksExact(s.connectors);
      ActiveSinksExact(t.connectors);
      forall g ensures Mirrored(md5, t, g) {
        assert Mirrored(md5, s, g);
        DeactivateChanges(md5, s, id, g);
      }
    }
  }

  lemma SetScopeKeeps(md5: Hash, s: State, id: nat, scope: Scope)
    requires Inv(md5, s) && Enabled(s, SetScope(id, scope))
    ensures Inv(md5, Next(md5, s, SetScope(id, scope)).0)
  {
    var t := Next(md5, s, SetScope(id, scope)).0;
    forall g ensures Mirrored(md5, t, g) {
      assert Mirrored(md5, s, g);
      assert ActiveIn(md5, t.connectors, g) == ActiveIn(md5, s.connectors, g);
    }
    ActiveSinksExact(s.connectors);
    ActiveSinksExact(t.connectors);
  }

  /** While the counts mirror reality, the assertion in `leave` never fires. */
  lemma NeverAsserts(md5: Hash, s: State, step: Step)
    requires Inv(md5, s) && Enabled(s, step)
    ensures Next(md5, s, step).1 != AssertionFailed
  {
    if step.Deactivate? && s.connectors[step.id].active {
      var g := ScopeToGroup(md5, s.connectors[step.id].scope);
      assert Mirrored(md5, s, g);
      assert step.id in ActiveIn(md5, s.connectors, g);
    }
  }

  /** A refused leave loses the registration and the count of a connector that stays active. */
  lemma RefusedLeave(md5: Hash, s: State, step: Step)
    requires Inv(md5, s) && LeaveFails(md5, s, step)
    ensures !Inv(md5, Next(md5, s, step).0)
    ensures Next(md5, Next(md5, s, step).0, step).1 == AssertionFailed
  {
    var t := Next(md5, s, step).0;
    var r := Registration(s.connectors[step.id].scope, step.id);
    assert t.connectors == s.connectors;
    assert r in ActiveSinks(t.connectors) && r !in t.hub.sinks;
  }

  /** A step keeps the mirror exactly when it is not a refused leave. */
  lemma MirrorKeptIff(md5: Hash, s: State, step: Step)
    requires Inv(md5, s) && Enabled(s, step)
    ensures Inv(md5, Next(md5, s, step).0) <==> !LeaveFails(md5, s, step)
  {
    if LeaveFails(md5, s, step) {
      RefusedLeave(md5, s, step);
    } else {
      match step
      case Activate(id, error) => ActivateKeeps(md5, s, id, error);
      case Deactivate(id, error) => DeactivateKeeps(md5, s, id, error);
      case SetScope(id, scope) => SetScopeKeeps(md5, s, id, scope);
    }
  }

  predicate Initial(s: State) {
    s.hub == Hub({}, Members(map[], {})) && forall c | c in s.connectors :: !s.connectors[c].active
  }

  /** A run of calls in which the daemon never refuses a leave. */
  predicate Allowed(md5: Hash, start: State, steps: seq<Step>)
    decreases |steps|, 0
  {
    if steps == [] then Initial(start)
    else
      var n := |steps| - 1;
      Allowed(md5, start, steps[..n]) && Enabled(After(md5, start, steps[..n]), steps[n])
      && !LeaveFails(md5, After(md5, start, steps[..n]), steps[n])
  }

  function After(md5: Hash, start: State, steps: seq<Step>): State
    requires Allowed(md5, start, steps)
    decreases |steps|, 1
  {
    if steps == [] then start
    else Next(md5, After(md5, start, steps[..|steps| - 1]), steps[|steps| - 1]).0
  }

  /** Over every run without a refused leave, failing joins included, the counts mirror reality. */
  lemma {:induction false} RunMirrors(md5: Hash, start: State, steps: seq<Step>)
    requires Allowed(md5, start, steps)
    ensures Inv(md5, After(md5, start, steps))
  {
    if steps == [] {
      forall g ensures Mirrored(md5, start, g) {
      }
    } else {
      var n := |steps| - 1;
      RunMirrors(md5, start, steps[..n]);
      MirrorKeptIff(md5, After(md5, start, steps[..n]), steps[n]);
    }
  }

  /** The groups of the connection are those of the registered sinks. */
  lemma JoinedGroupsOfSinks(md5: Hash, s: State)
    requires Inv(md5, s)
    ensures s.hub.members.joined == set r | r in s.hub.sinks :: ScopeToGroup(md5, r.scope)
  {
    forall g
      ensures g in s.hub.members.joined <==> exists r :: r in s.hub.sinks && ScopeToGroup(md5, r.scope) == g
    {
      assert Mirrored(md5, s, g);
      if g in s.hub.members.counts {
        var c :| c in ActiveIn(md5, s.connectors, g);
        assert Registration(s.connectors[c].scope, c) in s.hub.sinks;
      }
      if r :| r in s.hub.sinks && ScopeToGroup(md5, r.scope) == g {
        assert r.sink in ActiveIn(md5, s.connectors, g);
      }
    }
  }
}
