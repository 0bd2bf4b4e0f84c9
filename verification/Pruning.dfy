/** When assemblies disappear from a pool whose pruning task runs periodically. */
module Pruning {
  import opened Wire
  import opened Reassembly
  import Channel

  // ---------------------------------------------------------------- the age test

  /**
   * Exact meaning of the age test. The last disjunct is a clock that has gone
   * back by a second or more: the negative age turns into a huge unsigned one.
   */
  lemma ExpiredExact(a: Assembly, maxAge: uint32, now: int)
    requires -0x8000_0000 * MICROS_PER_SECOND <= now - a.birth < TWO32 * MICROS_PER_SECOND
    requires maxAge < 0x8000_0000
    ensures Expired(a, maxAge, now) <==>
            now - a.birth >= (maxAge + 1) * MICROS_PER_SECOND || now - a.birth <= -MICROS_PER_SECOND
  {
  }

  /** A new assembly is pruned at once if the local clock is set back by one second. */
  lemma ClockSetBackExample(slots: seq<Option<Fragment>>)
    ensures Expired(Assembly(slots, 1, 5 * MICROS_PER_SECOND), 20, 4 * MICROS_PER_SECOND)
  {
  }

  // ---------------------------------------------------------------- timed runs

  datatype Timed = Timed(pool: Pool, lastTick: int, clock: int)

  datatype Step = Arrival(fragment: Fragment, now: int) | Tick(now: int)

  datatype Settings = Settings(ageS: uint32, intervalMs: uint32) {
    function AgeLimit(): nat {
      (ageS + 1) * 1_000_000
    }

    function Interval(): nat {
      intervalMs * 1000
    }

    /** Ages of pooled assemblies stay within 32 bits of seconds. */
    predicate Sensible() {
      AgeLimit() + Interval() <= TWO32 * MICROS_PER_SECOND
    }
  }

  /** The clock is monotone and never runs more than one interval ahead of the last tick. */
  predicate Enabled(c: Settings, t: Timed, step: Step) {
    && t.clock <= step.now <= t.lastTick + c.Interval()
    && (step.Arrival? ==> Fits(t.pool, step.fragment))
  }

  ghost function Next(c: Settings, t: Timed, step: Step): Timed
    requires Enabled(c, t, step)
  {
    match step
    case Arrival(f, now) => Timed(PoolAdd(t.pool, f, now).0, t.lastTick, now)
    case Tick(now) => Timed(Unexpired(t.pool, c.ageS, now), now, now)
  }

  ghost predicate Allowed(c: Settings, start: int, steps: seq<Step>)
    decreases |steps|, 0
  {
    steps == [] || (Allowed(c, start, steps[..|steps| - 1])
                    && Enabled(c, After(c, start, steps[..|steps| - 1]), steps[|steps| - 1]))
  }

  /** The pool and the clock after a run that starts with an empty pool and a tick. */
  ghost function After(c: Settings, start: int, steps: seq<Step>): Timed
    requires Allowed(c, start, steps)
    decreases |steps|, 1
  {
    if steps == [] then Timed(map[], start, start)
    else Next(c, After(c, start, steps[..|steps| - 1]), steps[|steps| - 1])
  }

  /** Nothing that was old at the last tick is left. */
  ghost predicate Young(c: Settings, t: Timed) {
    forall k | k in t.pool :: t.pool[k].birth <= t.clock && t.lastTick - t.pool[k].birth < c.AgeLimit()
  }

  /**
   * An arrival that completes nothing leaves an assembly that was born when
   * its first fragment arrived, and does not make it any younger.
   */
  lemma BirthStays(c: Settings, t: Timed, f: Fragment, now: int)
    requires Enabled(c, t, Arrival(f, now)) && PoolAdd(t.pool, f, now).1.Pending?
    ensures var u := Next(c, t, Arrival(f, now)); var k := KeyOf(f);
            && k in u.pool && u.clock == now
            && u.pool[k].birth == (if k in t.pool then t.pool[k].birth else now)
            && u.pool[k].slots[f.part] == Some(f)
            && forall l | l in t.pool && l != k :: l in u.pool && u.pool[l] == t.pool[l]
  {
  }

  lemma StepKeepsYoung(c: Settings, t: Timed, step: Step)
    requires c.Sensible() && Young(c, t) && t.lastTick <= t.clock && Enabled(c, t, step)
    ensures Young(c, Next(c, t, step)) && Next(c, t, step).lastTick <= Next(c, t, step).clock
  {
    var u := Next(c, t, step);
    if step.Tick? {
      forall k | k in u.pool ensures u.lastTick - u.pool[k].birth < c.AgeLimit() {
        TickDecides(c, t, step.now, k);
      }
    }
  }

  /** A tick removes an assembly exactly when its age limit has passed. */
  lemma TickDecides(c: Settings, t: Timed, now: int, k: string)
    requires c.Sensible() && Young(c, t) && Enabled(c, t, Tick(now)) && k in t.pool
    ensures k in Next(c, t, Tick(now)).pool <==> now - t.pool[k].birth < c.AgeLimit()
  {
    var d := now - t.pool[k].birth;
    assert 0 <= d < TWO32 * MICROS_PER_SECOND;
    assert Age(t.pool[k].birth, now) == d / MICROS_PER_SECOND;
  }

  lemma {:induction false} RunKeepsYoung(c: Settings, start: int, steps: seq<Step>)
    requires c.Sensible() && Allowed(c, start, steps)
    ensures var t := After(c, start, steps); Young(c, t) && t.lastTick <= t.clock <= t.lastTick + c.Interval()
  {
    if steps == [] {
    } else {
      var n := |steps| - 1;
      RunKeepsYoung(c, start, steps[..n]);
      StepKeepsYoung(c, After(c, start, steps[..n]), steps[n]);
    }
  }

  /** No assembly is pruned early, and no incomplete one stays longer than limit plus interval. */
  lemma PruningBounds(c: Settings, start: int, steps: seq<Step>, k: string)
    requires c.Sensible() && Allowed(c, start, steps) && k in After(c, start, steps).pool
    ensures var t := After(c, start, steps);
            && t.clock - t.pool[k].birth < c.AgeLimit() + c.Interval()
            && forall now | Enabled(c, t, Tick(now)) ::
                 k !in Next(c, t, Tick(now)).pool <==> now - t.pool[k].birth >= c.AgeLimit()
  {
    var t := After(c, start, steps);
    RunKeepsYoung(c, start, steps);
    forall now | Enabled(c, t, Tick(now))
      ensures k !in Next(c, t, Tick(now)).pool <==> now - t.pool[k].birth >= c.AgeLimit()
    {
      TickDecides(c, t, now, k);
    }
  }

  // ---------------------------------------------------------------- ticks as channel steps

  function PruneSteps(keys: seq<string>): seq<Channel.Step> {
    seq(|keys|, i requires 0 <= i < |keys| => Channel.Prune(keys[i]))
  }

  lemma PruneOneMore(steps: seq<Channel.Step>, init: seq<string>, k: string)
    ensures steps + PruneSteps(init + [k]) == steps + PruneSteps(init) + [Channel.Prune(k)]
  {
  }

  lemma KeysOneMore(pool: Pool, init: seq<string>, k: string)
    ensures pool - (set x | x in init) - {k} == pool - (set x | x in init + [k])
  {
    assert (set x | x in init + [k]) == (set x | x in init) + {k};
  }

  /** Erasing a list of assemblies one after another is a run of prune steps of the channel. */
  lemma {:induction false} PruneRun(steps: seq<Channel.Step>, keys: seq<string>)
    requires Channel.Feasible(steps)
    requires forall i | 0 <= i < |keys| :: keys[i] in Channel.After(steps).pool
    requires forall i, j | 0 <= i < j < |keys| :: keys[i] != keys[j]
    ensures Channel.Feasible(steps + PruneSteps(keys))
    ensures Channel.After(steps + PruneSteps(keys)).sent == Channel.After(steps).sent
    ensures Channel.After(steps + PruneSteps(keys)).pool == Channel.After(steps).pool - (set k | k in keys)
  {
    if keys == [] {
      assert steps + PruneSteps(keys) == steps;
    } else {
      var init, k := keys[..|keys| - 1], keys[|keys| - 1];
      assert keys == init + [k] && k !in init;
      PruneRun(steps, init);
      PruneLast(steps, init, k);
    }
  }

  lemma PruneLast(steps: seq<Channel.Step>, init: seq<string>, k: string)
    requires Channel.Feasible(steps) && k in Channel.After(steps).pool && k !in init
    requires Channel.Feasible(steps + PruneSteps(init))
    requires Channel.After(steps + PruneSteps(init)).pool == Channel.After(steps).pool - (set x | x in init)
    ensures Channel.Feasible(steps + PruneSteps(init + [k]))
    ensures Channel.After(steps + PruneSteps(init + [k])).sent == Channel.After(steps + PruneSteps(init)).sent
    ensures Channel.After(steps + PruneSteps(init + [k])).pool
         == Channel.After(steps).pool - (set x | x in init + [k])
  {
    PruneOneMore(steps, init, k);
    KeysOneMore(Channel.After(steps).pool, init, k);
    Channel.OneMorePossible(steps + PruneSteps(init), Channel.Prune(k));
  }

  /** What the pruning task does to the pool is the effect of such a run. */
  lemma TickIsPruneRun(steps: seq<Channel.Step>, keys: seq<string>, maxAge: uint32, now: int)
    requires Channel.Feasible(steps)
    requires forall i, j | 0 <= i < j < |keys| :: keys[i] != keys[j]
    requires forall k :: k in keys <==>
                         k in Channel.After(steps).pool && Expired(Channel.After(steps).pool[k], maxAge, now)
    ensures Channel.Feasible(steps + PruneSteps(keys))
    ensures Channel.After(steps + PruneSteps(keys)).sent == Channel.After(steps).sent
    ensures Channel.After(steps + PruneSteps(keys)).pool == Unexpired(Channel.After(steps).pool, maxAge, now)
  {
    PruneRun(steps, keys);
    UnexpiredLeft(Channel.After(steps).pool, keys, maxAge, now);
  }

  lemma UnexpiredLeft(pool: Pool, keys: seq<string>, maxAge: uint32, now: int)
    requires forall k :: k in keys <==> k in pool && Expired(pool[k], maxAge, now)
    ensures pool - (set k | k in keys) == Unexpired(pool, maxAge, now)
  {
  }
}
