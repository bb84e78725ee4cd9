/** The size of the pool over all runs, and a run in which a fresh session is evicted for nothing. */
module PoolIdle {
  import opened Pools
  import opened PoolSafety
  import opened PoolRuns
  import opened PoolEviction

  /** Within its size, or with nothing in it to evict. */
  ghost predicate Bounded(p: State) {
    |p.lru| <= p.cfg.maxSessions || forall i :: 0 <= i < |p.lru| ==> !Free(p.arena, p.lru[i])
  }

  lemma EvictIsBounded(p: State, now: int)
    requires Sound(p)
    ensures Bounded(Evict(p, now))
  {
    var q := Evict(p, now);
    EvictKeepsSound(p, now, |p.lru| - 1);
    forall i | 0 <= i < |q.lru| && |q.lru| > p.cfg.maxSessions ensures !Free(q.arena, q.lru[i]) {
      assert q.lru[i] in q.lru;
      EvictSettles(p, now, q.lru[i]);
      assert SameUse(p.arena[q.lru[i]], q.arena[q.lru[i]]);
    }
  }

  /** Fewer on the list, and nobody on it used less. */
  ghost predicate NoFreer(p: State, q: State) {
    && q.cfg == p.cfg && |q.lru| <= |p.lru| && |p.arena| <= |q.arena| && (Indexed(p) ==> Indexed(q))
    && (forall i :: 0 <= i < |q.lru| ==> q.lru[i] in p.lru)
    && (forall id: nat :: IsEntry(p, id) && id in q.lru && !Free(p.arena, id) ==> !Free(q.arena, id))
  }

  lemma NoFreerIsBounded(p: State, q: State)
    requires Indexed(p) && Bounded(p) && NoFreer(p, q)
    ensures Bounded(q)
  {
    forall i | 0 <= i < |q.lru| && |q.lru| > q.cfg.maxSessions ensures !Free(q.arena, q.lru[i]) {
      var k :| 0 <= k < |p.lru| && p.lru[k] == q.lru[i];
      assert IsEntry(p, p.lru[k]) && q.lru[i] in q.lru;
    }
  }

  lemma ReclaimIsNoFreer(p: State, excess: int, q: State)
    requires Sound(p) && q == Reclaim(p, excess, |p.lru| - 1)
    ensures NoFreer(p, q)
  {
    ReclaimKeepsSound(p, excess, |p.lru| - 1, q);
    forall i | 0 <= i < |q.lru| ensures q.lru[i] in p.lru {
      assert q.lru[i] in q.lru;
    }
    forall id: nat | IsEntry(p, id) && !Free(p.arena, id) ensures !Free(q.arena, id) {
      assert SameUse(p.arena[id], q.arena[id]);
    }
    DistinctWithin(q.lru, p.lru);
  }

  /** A list of different things all of which are in another is no longer than it. */
  lemma {:induction false} DistinctWithin(a: seq<nat>, b: seq<nat>)
    requires Distinct(a) && forall i :: 0 <= i < |a| ==> a[i] in b
    ensures |a| <= |b|
    decreases |a|
  {
    if a != [] {
      var last, front := a[|a| - 1], a[..|a| - 1];
      var k :| 0 <= k < |b| && b[k] == last;
      var rest := b[..k] + b[k + 1..];
      forall i | 0 <= i < |front| ensures front[i] in rest {
        assert front[i] == a[i] && a[i] != last;
        var m :| 0 <= m < |b| && b[m] == a[i];
        assert rest[if m < k then m else m - 1] == a[i];
      }
      DistinctWithin(front, rest);
    }
  }

  lemma TakeIsBounded(p: State, key: string, now: int)
    requires Sound(p) && Bounded(p) && key in p.entries
    ensures Bounded(TakeEntry(p, key, now))
  {
    var id, q := p.entries[key], TakeEntry(p, key, now);
    TakeKeepsLinked(p, key, now);
    var k :| 0 <= k < |p.lru| && p.lru[k] == id;
    WithoutAt(p.lru, k);
    ToFront(p.lru, id);
    forall i | 0 <= i < |q.lru| ensures q.lru[i] in p.lru {
      assert q.lru[i] in [id] + Without(p.lru, id);
    }
    NoFreerIsBounded(p, q);
  }

  lemma DeadIsNoFreer(p: State, id: nat, poisoned: bool, now: int)
    requires Sound(p) && IsEntry(p, id) && p.arena[id].dead
    ensures NoFreer(p, Returned(p, id, poisoned, now))
  {
    assert id !in p.lru;
  }

  lemma ReturnIsBounded(p: State, id: nat, poisoned: bool, now: int)
    requires Sound(p) && Bounded(p) && (p.closed ==> p.lru == []) && IsEntry(p, id) && 0 < p.arena[id].inUse
    ensures Bounded(Returned(p, id, poisoned, now))
  {
    var q := OneFewer(p, id, now);
    FewerKeepsSound(p, id, now);
    if p.arena[id].dead {
      DeadIsNoFreer(p, id, poisoned, now);
      NoFreerIsBounded(p, Returned(p, id, poisoned, now));
    } else {
      GuardsAreNeverNeeded(p, id, now);
      if poisoned {
        PoisonedIsBounded(p, id, now, q);
      } else {
        EvictIsBounded(q, now);
      }
    }
  }

  lemma UnlinkedIsNoFreer(p: State, id: nat, now: int, k: nat)
    requires IsEntry(p, id) && Sound(OneFewer(p, id, now)) && k < |p.lru| && p.lru[k] == id
    ensures NoFreer(p, Unlinked(OneFewer(p, id, now), k))
  {
    var q := OneFewer(p, id, now);
    var r := Unlinked(q, k);
    UnlinkKeepsSound(q, k);
    forall i | 0 <= i < |r.lru| ensures r.lru[i] in p.lru {
      assert r.lru[i] in r.lru;
    }
    forall other: nat | IsEntry(p, other) && other in r.lru && !Free(p.arena, other) ensures !Free(r.arena, other) {
      assert other != id && q.arena[other] == p.arena[other];
    }
  }

  lemma PoisonedIsBounded(p: State, id: nat, now: int, q: State)
    requires Sound(p) && Bounded(p) && IsEntry(p, id) && q == OneFewer(p, id, now) && Sound(q) && !q.arena[id].dead
    ensures Bounded(Unlink(q, id))
  {
    assert id in q.lru;
    var k: nat :| k < |q.lru| && q.lru[k] == id;
    UnlinkedIsNoFreer(p, id, now, k);
    NoFreerIsBounded(p, Unlinked(q, k));
  }

  lemma LeaseIsBounded(p: State, id: nat, kind: Kind)
    requires Sound(p) && Bounded(p) && IsEntry(p, id)
    ensures Bounded(LeaseTried(p, id, kind))
  {
    if !p.closed && !Admitted(p, id, kind) {
      var excess := Charged(p, id) + Need(p, id, kind) - Limit(p, kind);
      ReclaimIsNoFreer(p, excess, Reclaim(p, excess, |p.lru| - 1));
      NoFreerIsBounded(p, Reclaim(p, excess, |p.lru| - 1));
    }
  }

  lemma OfferIsBounded(w: World, bid: nat, sid: nat, now: int)
    requires Inv(w) && InShape(w) && Bounded(w.pool) && Enabled(w, Offer(bid, sid, now))
    ensures Bounded(Next(w, Offer(bid, sid, now)).pool)
  {
    var p, key, fs := w.pool, w.building[bid].key, w.building[bid].fs;
    OfferedIsNew(w, bid);
    if !p.closed {
      if key in p.entries {
        SurplusKeepsSound(p, fs);
        TakeIsBounded(Surplus(p, fs), key, now);
      } else {
        InsertKeepsSound(p, key, fs, now);
        EvictIsBounded(Insert(p, key, fs, now), now);
      }
    }
  }

  lemma ShutIsBounded(p: State)
    requires Sound(p) && Bounded(p)
    ensures Bounded(Shut(p))
  {
  }

  /** The same list, used as much. */
  lemma SameUseIsBounded(p: State, q: State)
    requires Indexed(p) && Bounded(p) && q.lru == p.lru && q.cfg == p.cfg && |q.arena| == |p.arena|
    requires forall id: nat :: IsEntry(p, id) ==> q.arena[id].inUse == p.arena[id].inUse
    ensures Bounded(q)
  {
    forall i | 0 <= i < |q.lru| && |q.lru| > q.cfg.maxSessions ensures !Free(q.arena, q.lru[i]) {
      assert IsEntry(p, p.lru[i]);
    }
  }

  lemma CheckoutIsBounded(w: World, sid: nat, key: string, now: int)
    requires Inv(w) && InShape(w) && Bounded(w.pool) && Enabled(w, Checkout(sid, key, now))
    ensures Bounded(Next(w, Checkout(sid, key, now)).pool)
  {
    TakeIsBounded(w.pool, key, now);
  }

  lemma EndCloseIsBounded(w: World, sid: nat, now: int)
    requires Inv(w) && InShape(w) && Bounded(w.pool) && Enabled(w, EndClose(sid, now))
    ensures Bounded(Next(w, EndClose(sid, now)).pool)
  {
    assert sid in Holders(w, w.sessions[sid].entry);
    ReturnIsBounded(w.pool, w.sessions[sid].entry, w.sessions[sid].poisoned, now);
  }

  lemma TryLeaseIsBounded(w: World, sid: nat, kind: Kind)
    requires Inv(w) && InShape(w) && Bounded(w.pool) && Enabled(w, TryLease(sid, kind))
    ensures Bounded(Next(w, TryLease(sid, kind)).pool)
  {
    LeaseIsBounded(w.pool, w.sessions[sid].entry, kind);
  }

  lemma ConnectionStepIsBounded(w: World, step: Step)
    requires Inv(w) && InShape(w) && Bounded(w.pool) && Enabled(w, step)
    requires step.EndLease? || step.Dial? || step.HangUp? || step.Torn?
    ensures Bounded(Next(w, step).pool)
  {
    var q := Next(w, step).pool;
    ConnectionStepUsesSame(w, step, q);
    SameUseIsBounded(w.pool, q);
  }

  lemma ConnectionStepUsesSame(w: World, step: Step, q: State)
    requires InShape(w) && Enabled(w, step) && q == Next(w, step).pool
    requires step.EndLease? || step.Dial? || step.HangUp? || step.Torn?
    ensures q.lru == w.pool.lru && q.cfg == w.pool.cfg && |q.arena| == |w.pool.arena|
    ensures forall id: nat :: IsEntry(w.pool, id) ==> q.arena[id].inUse == w.pool.arena[id].inUse
  {
  }

  lemma StepKeepsBounded(w: World, step: Step)
    requires Inv(w) && InShape(w) && Bounded(w.pool) && Enabled(w, step)
    ensures Bounded(Next(w, step).pool)
  {
    match step
    case Checkout(sid, key, now) => CheckoutIsBounded(w, sid, key, now);
    case Offer(bid, sid, now) => OfferIsBounded(w, bid, sid, now);
    case EndClose(sid, now) => EndCloseIsBounded(w, sid, now);
    case TryLease(sid, kind) => TryLeaseIsBounded(w, sid, kind);
    case SweepNow(now) => SweepIsBounded(w, now);
    case ClosePool => ShutIsBounded(w.pool);
    case StartBuild(_, _) =>
    case Poison(_) =>
    case BeginClose(_) =>
    case EndLease(_, _) => ConnectionStepIsBounded(w, step);
    case Dial(_, _) => ConnectionStepIsBounded(w, step);
    case HangUp(_, _) => ConnectionStepIsBounded(w, step);
    case Torn(_) => ConnectionStepIsBounded(w, step);
  }

  lemma SweepIsBounded(w: World, now: int)
    requires Inv(w) && InShape(w) && Bounded(w.pool) && Enabled(w, SweepNow(now))
    ensures Bounded(Next(w, SweepNow(now)).pool)
  {
    EvictIsBounded(w.pool, now);
  }

  /** Main result: in every run the pool is within its size, or everything listed in it is in use. */
  lemma {:induction false} SizeHolds(cfg: Config, steps: seq<Step>)
    ensures Bounded(After(cfg, steps).pool)
    decreases |steps|
  {
    if steps != [] {
      var v := After(cfg, steps[..|steps| - 1]);
      SizeHolds(cfg, steps[..|steps| - 1]);
      RunsAreSound(cfg, steps[..|steps| - 1]);
      if InShape(v) && Enabled(v, steps[|steps| - 1]) { StepKeepsBounded(v, steps[|steps| - 1]); }
    }
  }

  // ----- A run that evicts for nothing -----

  /** Nothing to evict: the pool is within its size and nobody is past the timeout. */
  lemma {:induction false} EvictsNobody(p: State, now: int, i: int)
    requires Indexed(p) && i < |p.lru| <= p.cfg.maxSessions
    requires forall k :: 0 <= k < |p.lru| ==> !Stale(p.arena, now - p.cfg.idleTimeout, p.lru[k])
    ensures EvictFrom(p, now, i) == p
    decreases i + 1
  {
    if 0 <= i { EvictsNobody(p, now, i - 1); }
  }

  /** So a new entry evicts nobody when there is room for it and nobody is past the timeout. */
  lemma InsertEvictsNobody(p: State, key: string, fs: nat, now: int)
    requires Indexed(p) && |p.lru| < p.cfg.maxSessions && 0 <= p.cfg.idleTimeout
    requires forall k :: 0 <= k < |p.lru| ==> !Stale(p.arena, now - p.cfg.idleTimeout, p.lru[k])
    ensures Indexed(Insert(p, key, fs, now)) && Evict(Insert(p, key, fs, now), now) == Insert(p, key, fs, now)
  {
    var q := Insert(p, key, fs, now);
    InsertIsIndexed(p, key, fs, now);
    forall k | 0 <= k < |q.lru| ensures !Stale(q.arena, now - q.cfg.idleTimeout, q.lru[k]) {
      if 0 < k { assert q.lru[k] == p.lru[k - 1] && q.arena[q.lru[k]] == p.arena[p.lru[k - 1]]; }
    }
    EvictsNobody(q, now, |q.lru| - 1);
  }

  /** A user's first session, checked out at some time. */
  lemma FirstSession(cfg: Config, front: seq<Step>, w: World, key: string, now: int) returns (steps: seq<Step>, v: World)
    requires w == After(cfg, front) && !w.pool.closed && key !in w.pool.entries && w.building == map[]
    requires w.built !in w.sessions
    ensures steps == front + [StartBuild(0, key)] + [Offer(0, w.built, now)]
    ensures Indexed(Insert(w.pool, key, w.built, now))
    ensures v == After(cfg, steps) && v.building == map[] && v.built == w.built + 1
    ensures v.pool == Evict(Insert(w.pool, key, w.built, now), now)
    ensures v.sessions == w.sessions[w.built := Session(|w.pool.arena|, w.built, false, false)]
  {
    AfterOneMore(cfg, front, StartBuild(0, key));
    var middle := front + [StartBuild(0, key)];
    AfterOneMore(cfg, middle, Offer(0, w.built, now));
    InsertIsIndexed(w.pool, key, w.built, now);
    steps := middle + [Offer(0, w.built, now)];
    v := After(cfg, steps);
    assert map[0 := Build(key, w.built)] - {0} == map[];
  }

  lemma ReturnedAlive(p: State, id: nat, now: int)
    requires Indexed(p) && IsEntry(p, id) && !p.arena[id].dead && !p.closed
    ensures Indexed(OneFewer(p, id, now)) && Returned(p, id, false, now) == Evict(OneFewer(p, id, now), now)
  {
  }

  lemma CloseBegins(cfg: Config, front: seq<Step>, w: World, sid: nat)
    requires w == After(cfg, front) && sid in w.sessions && !w.sessions[sid].closing
    ensures After(cfg, front + [BeginClose(sid)]) == w.(sessions := w.sessions[sid := w.sessions[sid].(closing := true)])
  {
    AfterOneMore(cfg, front, BeginClose(sid));
  }

  lemma CloseEnds(cfg: Config, middle: seq<Step>, m: World, sid: nat, now: int)
    requires m == After(cfg, middle) && sid in m.sessions && m.sessions[sid].closing
    ensures Indexed(m.pool) && IsEntry(m.pool, m.sessions[sid].entry)
    ensures After(cfg, middle + [EndClose(sid, now)])
         == m.(pool := Returned(m.pool, m.sessions[sid].entry, m.sessions[sid].poisoned, now), sessions := m.sessions - {sid})
  {
    AfterOneMore(cfg, middle, EndClose(sid, now));
  }

  /** A session closed at some time, unpoisoned, on an open pool. */
  lemma SessionClosed(cfg: Config, front: seq<Step>, w: World, sid: nat, now: int) returns (steps: seq<Step>, v: World)
    requires w == After(cfg, front) && sid in w.sessions && !w.sessions[sid].closing && !w.sessions[sid].poisoned
    requires !w.pool.closed && IsEntry(w.pool, w.sessions[sid].entry) && !w.pool.arena[w.sessions[sid].entry].dead
    ensures steps == front + [BeginClose(sid)] + [EndClose(sid, now)]
    ensures Indexed(OneFewer(w.pool, w.sessions[sid].entry, now))
    ensures v == After(cfg, steps) && v.building == w.building && v.built == w.built
    ensures v.pool == Evict(OneFewer(w.pool, w.sessions[sid].entry, now), now)
    ensures v.sessions == w.sessions - {sid}
  {
    CloseBegins(cfg, front, w, sid);
    var middle := front + [BeginClose(sid)];
    var m := After(cfg, middle);
    CloseEnds(cfg, middle, m, sid, now);
    ReturnedAlive(w.pool, w.sessions[sid].entry, now);
    steps := middle + [EndClose(sid, now)];
    v := After(cfg, steps);
    assert m.sessions - {sid} == w.sessions - {sid};
  }

  const SMALL := Config(2, 50, 2, "proxy")

  function Entered(user: string, fs: nat, lastUsed: int, inUse: int): Entry {
    Entry(user, Some(fs), lastUsed, inUse, NO_CONNECTIONS, false, NO_CONNECTIONS)
  }

  /** Bob and Ann have each had a session; Ann's, the later one, came back first. */
  ghost predicate BothReturned(w: World) {
    && w.sessions == map[] && w.building == map[] && w.built == 2 && !w.pool.closed && w.pool.cfg == SMALL
    && w.pool.lru == [1, 0] && w.pool.arena == [Entered("bob", 0, 30, 0), Entered("ann", 1, 0, 0)]
    && w.pool.entries == map["bob" := 0, "ann" := 1]
  }

  /** The first session a pool with room for one hands out. */
  lemma FirstEver(cfg: Config, key: string) returns (steps: seq<Step>, w: World)
    requires 0 < cfg.maxSessions && 0 <= cfg.idleTimeout
    ensures w == After(cfg, steps) && w.building == map[] && w.built == 1 && !w.pool.closed && w.pool.cfg == cfg
    ensures w.sessions == map[0 := Session(0, 0, false, false)]
    ensures w.pool.lru == [0] && w.pool.arena == [Entered(key, 0, 0, 1)] && w.pool.entries == map[key := 0]
  {
    var start := After(cfg, []);
    assert start == Start(cfg);
    InsertEvictsNobody(start.pool, key, 0, 0);
    steps, w := FirstSession(cfg, [], start, key, 0);
  }

  lemma BothCheckedOut() returns (steps: seq<Step>, w: World)
    ensures w == After(SMALL, steps) && w.building == map[] && w.built == 2 && !w.pool.closed && w.pool.cfg == SMALL
    ensures w.sessions == map[0 := Session(0, 0, false, false), 1 := Session(1, 1, false, false)]
    ensures w.pool.lru == [1, 0] && w.pool.arena == [Entered("bob", 0, 0, 1), Entered("ann", 1, 0, 1)]
    ensures w.pool.entries == map["bob" := 0, "ann" := 1]
  {
    var one, v := FirstEver(SMALL, "bob");
    InsertEvictsNobody(v.pool, "ann", 1, 0);
    steps, w := FirstSession(SMALL, one, v, "ann", 0);
  }

  lemma AnnClosed() returns (steps: seq<Step>, w: World)
    ensures w == After(SMALL, steps) && w.building == map[] && w.built == 2 && !w.pool.closed && w.pool.cfg == SMALL
    ensures w.sessions == map[0 := Session(0, 0, false, false)]
    ensures w.pool.lru == [1, 0] && w.pool.arena == [Entered("bob", 0, 0, 1), Entered("ann", 1, 0, 0)]
    ensures w.pool.entries == map["bob" := 0, "ann" := 1]
  {
    var two, w2 := BothCheckedOut();
    steps, w := SessionClosed(SMALL, two, w2, 1, 0);
    EvictsNobody(OneFewer(w2.pool, 1, 0), 0, 1);
    assert w.pool == OneFewer(w2.pool, 1, 0);
  }

  lemma BothClosed() returns (steps: seq<Step>, w: World)
    ensures w == After(SMALL, steps) && BothReturned(w)
  {
    var three, w3 := AnnClosed();
    steps, w := SessionClosed(SMALL, three, w3, 0, 30);
    EvictsNobody(OneFewer(w3.pool, 0, 30), 30, 1);
    assert w.pool == OneFewer(w3.pool, 0, 30);
  }

  lemma ThirdEvictsBoth(p: State)
    requires Indexed(p) && p.cfg == SMALL && p.lru == [2, 1, 0]
    requires p.arena == [Entered("bob", 0, 30, 0), Entered("ann", 1, 0, 0), Entered("carl", 2, 60, 1)]
    ensures Evict(p, 60).lru == [2]
  {
    EvictIsOfList(p, p.arena, 60, 3, Evict(p, 60));
    assert p.lru[..3] == p.lru && p.lru[3..] == [];
    LastTwoGo(p.arena, 10, p.lru);
    assert p.lru[..1] == [2];
  }

  /** Three in a pool for two: the last is free, the one before it stale, the first in use. */
  lemma LastTwoGo(a: seq<Entry>, cutoff: int, ids: seq<nat>)
    requires |ids| == 3 && Free(a, ids[2]) && Stale(a, cutoff, ids[1]) && !Free(a, ids[0])
    ensures EvictList(a, 2, cutoff, ids, 0) == ids[..1]
  {
    assert ids[..3] == ids && ids[..0] == [] && ids[..1] == [ids[0]];
    EvictListStep(a, 2, cutoff, ids, 2, 0);
    EvictListStep(a, 2, cutoff, ids, 1, 0);
    EvictListStep(a, 2, cutoff, ids, 0, 0);
    assert EvictList(a, 2, cutoff, ids[..0], 1) == [];
  }

  /** Main result: there is a run in which a session well within the timeout is evicted to make room for a
      third, though room was about to be made: Ann's, nearer the front but returned earlier, goes as well,
      and the pool is left with one session where two may stay. */
  lemma FreshGoesForNothing() returns (steps: seq<Step>, now: int)
    ensures var before, after := After(SMALL, steps).pool, After(SMALL, steps + [StartBuild(0, "carl")] + [Offer(0, 2, now)]).pool;
            && before.lru == [1, 0] && !Stale(before.arena, now - SMALL.idleTimeout, 0)
            && Stale(before.arena, now - SMALL.idleTimeout, 1)
            && after.lru == [2] && |after.lru| < SMALL.maxSessions
  {
    var w;
    steps, w := BothClosed();
    now := 60;
    var last, v := FirstSession(SMALL, steps, w, "carl", now);
    ThirdEvictsBoth(Insert(w.pool, "carl", 2, now));
  }
}
