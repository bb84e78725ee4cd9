/** The connection cap over all runs, and that no waiting call misses a freed connection. */
module PoolCapacity {
  import opened Pools
  import opened PoolSafety
  import opened PoolRuns

  function Load(p: State, id: nat): Usage
    requires IsEntry(p, id)
  {
    if id !in p.tracked then NO_CONNECTIONS
    else Usage(Max(p.arena[id].open.metadata, p.arena[id].leased.metadata),
               Max(p.arena[id].open.transfer, p.arena[id].leased.transfer))
  }

  /** What the first `n` entries are charged in one of the two connection pools. */
  function KindCharge(p: State, kind: Kind, n: nat): nat
    requires n <= |p.arena|
  {
    if n == 0 then 0 else KindCharge(p, kind, n - 1) + Load(p, n - 1).Of(kind)
  }

  function KindOpen(p: State, kind: Kind, n: nat): nat
    requires n <= |p.arena|
  {
    if n == 0 then 0 else KindOpen(p, kind, n - 1) + p.arena[n - 1].open.Of(kind)
  }

  function TotalCharge(p: State): nat { TrackedCharge(p, |p.arena|) }

  function TransferCharge(p: State): nat { KindCharge(p, Transfer, |p.arena|) }

  function MetadataCharge(p: State): nat { KindCharge(p, Metadata, |p.arena|) }

  function Open(p: State): nat { KindOpen(p, Metadata, |p.arena|) + KindOpen(p, Transfer, |p.arena|) }

  lemma {:induction false} ChargeByKind(p: State, n: nat)
    requires n <= |p.arena|
    ensures TrackedCharge(p, n) == KindCharge(p, Metadata, n) + KindCharge(p, Transfer, n)
  {
    if 0 < n { ChargeByKind(p, n - 1); }
  }

  /** Nothing is open where nothing is tracked. */
  ghost predicate OpenIsTracked(p: State) {
    forall id: nat :: IsEntry(p, id) && id !in p.tracked ==> p.arena[id].open == NO_CONNECTIONS
  }

  lemma {:induction false} OpenWithinCharge(p: State, kind: Kind, n: nat)
    requires OpenIsTracked(p) && n <= |p.arena|
    ensures KindOpen(p, kind, n) <= KindCharge(p, kind, n)
  {
    if 0 < n {
      OpenWithinCharge(p, kind, n - 1);
      assert IsEntry(p, n - 1);
    }
  }

  // ----- Steps that add no load -----

  /** Entries of `p` are still there with no more load, and new ones have none. */
  ghost predicate Lighter(p: State, q: State) {
    && q.cfg == p.cfg && |p.arena| <= |q.arena|
    && (forall id: nat, kind :: IsEntry(p, id) ==> Load(q, id).Of(kind) <= Load(p, id).Of(kind))
    && (forall id: nat, kind :: |p.arena| <= id && IsEntry(q, id) ==> Load(q, id).Of(kind) == 0)
    && (OpenIsTracked(p) ==> OpenIsTracked(q))
  }

  /** Entries of `p` are still there with no less load, and a call that needed a connection still does. */
  ghost predicate Heavier(p: State, q: State) {
    && q.cfg == p.cfg && |p.arena| <= |q.arena|
    && (forall id: nat :: IsEntry(p, id) ==> HeavierAt(p, q, id))
  }

  ghost predicate HeavierAt(p: State, q: State, id: nat)
    requires IsEntry(p, id) && IsEntry(q, id)
  {
    && (id in p.tracked ==> id in q.tracked)
    && Charge(p.arena[id].open, p.arena[id].leased) <= Charge(q.arena[id].open, q.arena[id].leased)
    && p.arena[id].leased.Total() <= q.arena[id].leased.Total()
    && (forall kind: Kind :: p.arena[id].open.Of(kind) <= p.arena[id].leased.Of(kind)
                       ==> q.arena[id].open.Of(kind) <= q.arena[id].leased.Of(kind))
  }

  lemma {:induction false} LighterCharge(p: State, q: State, kind: Kind, n: nat)
    requires Lighter(p, q) && n <= |q.arena|
    ensures KindCharge(q, kind, n) <= KindCharge(p, kind, if n < |p.arena| then n else |p.arena|)
  {
    if 0 < n {
      LighterCharge(p, q, kind, n - 1);
      if n <= |p.arena| { assert IsEntry(p, n - 1); } else { assert IsEntry(q, n - 1); }
    }
  }

  lemma {:induction false} HeavierCharge(p: State, q: State, n: nat, m: nat)
    requires Heavier(p, q) && n <= |p.arena| && n <= m <= |q.arena|
    ensures TrackedCharge(p, n) <= TrackedCharge(q, m)
    decreases m
  {
    if n < m {
      HeavierCharge(p, q, n, m - 1);
    } else if 0 < n {
      HeavierCharge(p, q, n - 1, m - 1);
      assert IsEntry(p, n - 1) && HeavierAt(p, q, n - 1);
    }
  }

  /** Neither lighter nor heavier: same entries, same connections and leases; and nobody is woken. */
  ghost predicate SameLoad(p: State, q: State) {
    && q.cfg == p.cfg && |p.arena| <= |q.arena| && q.changed == p.changed
    && (forall id: nat :: IsEntry(p, id) ==>
         && q.arena[id].open == p.arena[id].open && q.arena[id].leased == p.arena[id].leased
         && (id in q.tracked <==> id in p.tracked))
    && (forall id: nat :: |p.arena| <= id && IsEntry(q, id) ==>
         q.arena[id].open == NO_CONNECTIONS && q.arena[id].leased == NO_CONNECTIONS)
  }

  lemma SameIsBoth(p: State, q: State)
    requires SameLoad(p, q)
    ensures Lighter(p, q) && Heavier(p, q)
  {
    forall id: nat | IsEntry(p, id) ensures HeavierAt(p, q, id) { }
    if OpenIsTracked(p) {
      forall id: nat | IsEntry(q, id) && id !in q.tracked ensures q.arena[id].open == NO_CONNECTIONS {
        if id < |p.arena| { assert IsEntry(p, id); }
      }
    }
  }

  lemma SameLoadTwice(p: State, q: State, r: State)
    requires SameLoad(p, q) && SameLoad(q, r)
    ensures SameLoad(p, r)
  {
    forall id: nat | IsEntry(p, id)
      ensures r.arena[id].open == p.arena[id].open && r.arena[id].leased == p.arena[id].leased
      ensures id in r.tracked <==> id in p.tracked
    {
      assert IsEntry(q, id);
    }
    forall id: nat | |p.arena| <= id && IsEntry(r, id)
      ensures r.arena[id].open == NO_CONNECTIONS && r.arena[id].leased == NO_CONNECTIONS
    {
      if id < |q.arena| { assert IsEntry(q, id); }
    }
  }

  lemma ShrinkingIsSame(p: State, q: State)
    requires Shrinks(p, q)
    ensures SameLoad(p, q)
  {
    forall id: nat | IsEntry(p, id)
      ensures q.arena[id].open == p.arena[id].open && q.arena[id].leased == p.arena[id].leased
    {
      assert SameUse(p.arena[id], q.arena[id]);
    }
  }

  lemma EvictIsSame(p: State, now: int)
    requires Sound(p)
    ensures SameLoad(p, Evict(p, now))
  {
    EvictKeepsSound(p, now, |p.lru| - 1);
    ShrinkingIsSame(p, Evict(p, now));
  }

  lemma ReturnIsSame(p: State, id: nat, poisoned: bool, now: int)
    requires Sound(p) && (p.closed ==> p.lru == []) && IsEntry(p, id) && 0 < p.arena[id].inUse
    ensures SameLoad(p, Returned(p, id, poisoned, now))
  {
    FewerIsSame(p, id, now);
    if !p.arena[id].dead {
      FewerKeepsSound(p, id, now);
      GuardsAreNeverNeeded(p, id, now);
      ReturnedAliveIsSame(p, id, poisoned, now);
    } else {
      SameLoadTwice(p, OneFewer(p, id, now), Returned(p, id, poisoned, now));
    }
  }

  lemma FewerIsSame(p: State, id: nat, now: int)
    requires IsEntry(p, id)
    ensures SameLoad(p, OneFewer(p, id, now))
  {
  }

  lemma ReturnedAliveIsSame(p: State, id: nat, poisoned: bool, now: int)
    requires IsEntry(p, id) && !p.arena[id].dead && !p.closed && Sound(OneFewer(p, id, now)) && Reachable(OneFewer(p, id, now), id)
    requires Indexed(p) && SameLoad(p, OneFewer(p, id, now))
    ensures SameLoad(p, Returned(p, id, poisoned, now))
  {
    var q := OneFewer(p, id, now);
    ReturnedAliveIs(p, id, poisoned, now, q);
    if poisoned {
      UnlinkIsSame(q, id);
      SameLoadTwice(p, q, Unlink(q, id));
    } else {
      EvictIsSame(q, now);
      SameLoadTwice(p, q, Evict(q, now));
    }
  }

  lemma ReturnedAliveIs(p: State, id: nat, poisoned: bool, now: int, q: State)
    requires Indexed(p) && IsEntry(p, id) && !p.arena[id].dead && !p.closed && q == OneFewer(p, id, now) && Reachable(q, id)
    ensures Indexed(q) && Returned(p, id, poisoned, now) == if poisoned then Unlink(q, id) else Evict(q, now)
  {
  }

  lemma UnlinkIsSame(q: State, id: nat)
    requires IsEntry(q, id)
    ensures SameLoad(q, Unlink(q, id))
  {
  }

  lemma {:induction false} InsertIsSame(p: State, key: string, fs: nat, now: int)
    requires Sound(p) && key !in p.entries && Places(p, fs) == 0
    ensures SameLoad(p, Evict(Insert(p, key, fs, now), now))
  {
    InsertKeepsSound(p, key, fs, now);
    var q := Insert(p, key, fs, now);
    EvictIsSame(q, now);
    assert SameLoad(p, q);
    SameLoadTwice(p, q, Evict(q, now));
  }

  lemma TakeIsSame(p: State, key: string, now: int)
    requires key in p.entries && IsEntry(p, p.entries[key])
    ensures SameLoad(p, TakeEntry(p, key, now))
  {
  }

  lemma {:induction false} OfferIsSame(w: World, bid: nat, sid: nat, now: int)
    requires Inv(w) && InShape(w) && Enabled(w, Offer(bid, sid, now))
    ensures SameLoad(w.pool, Next(w, Offer(bid, sid, now)).pool)
  {
    var p, key, fs := w.pool, w.building[bid].key, w.building[bid].fs;
    if p.closed {
      assert Next(w, Offer(bid, sid, now)).pool == Surplus(p, fs);
    } else if key in p.entries {
      AliveHasFS(p, key);
      TakeIsSame(Surplus(p, fs), key, now);
      assert SameLoad(p, Surplus(p, fs));
      SameLoadTwice(p, Surplus(p, fs), TakeEntry(Surplus(p, fs), key, now));
    } else {
      OfferedIsNew(w, bid);
      InsertIsSame(p, key, fs, now);
    }
  }

  lemma ShutIsSame(p: State)
    requires Sound(p)
    ensures p.closed ==> Shut(p) == p
    ensures !p.closed ==> SameLoad(Signal(p), Shut(p))
  {
    if !p.closed {
      var q := Signal(p.(closed := true));
      OpenedSound(p, q);
      ClosingKeepsSound(q);
      ShrinkingIsSame(q, UnlinkAll(q));
      assert SameLoad(Signal(p), q);
      SameLoadTwice(Signal(p), q, UnlinkAll(q));
    }
  }

  lemma {:induction false} ShutIsBoth(p: State)
    requires Sound(p)
    ensures Lighter(p, Shut(p)) && Heavier(p, Shut(p))
  {
    ShutIsSame(p);
    if p.closed {
      assert SameLoad(p, p);
      SameIsBoth(p, p);
    } else {
      SameIsBoth(Signal(p), Shut(p));
      SignalledIsHeavier(p, Shut(p));
      SignalledIsLighter(p, Shut(p));
    }
  }

  lemma SignalledIsHeavier(p: State, q: State)
    requires Heavier(Signal(p), q)
    ensures Heavier(p, q)
  {
    forall id: nat | IsEntry(p, id) ensures HeavierAt(p, q, id) { assert HeavierAt(Signal(p), q, id); }
  }

  lemma SignalledIsLighter(p: State, q: State)
    requires Lighter(Signal(p), q)
    ensures Lighter(p, q)
  {
    forall id: nat, kind | IsEntry(p, id) ensures Load(q, id).Of(kind) <= Load(p, id).Of(kind) {
      assert Load(Signal(p), id) == Load(p, id);
    }
    assert OpenIsTracked(p) ==> OpenIsTracked(Signal(p));
  }

  lemma OpenedSound(p: State, q: State)
    requires Sound(p) && q == Signal(p.(closed := true))
    ensures Sound(q)
  {
    KillKeepsPlaces(p, q);
    assert Linked(q) by {
      forall k: nat | IsEntry(q, k) ensures !q.arena[k].dead <==> k in q.lru { assert IsEntry(p, k); }
    }
    assert Stocked(q) by {
      forall k: nat | IsEntry(q, k) ensures q.arena[k].fs.Some? <==> !Idle(q.arena[k]) { assert IsEntry(p, k); }
    }
  }

  /** Steps that move no connection and no lease. */
  ghost predicate Calm(w: World, step: Step)
    requires Inv(w) && InShape(w) && Enabled(w, step)
  {
    match step
    case EndLease(_, _) => false
    case Dial(_, _) => false
    case HangUp(_, _) => false
    case Torn(_) => false
    case ClosePool => w.pool.closed
    case TryLease(sid, kind) => w.pool.closed || !Admitted(w.pool, w.sessions[sid].entry, kind)
    case _ => true
  }

  lemma WaitIsSame(p: State, id: nat, kind: Kind)
    requires Sound(p) && IsEntry(p, id) && (p.closed || !Admitted(p, id, kind))
    ensures SameLoad(p, LeaseTried(p, id, kind))
  {
    if p.closed {
      assert LeaseTried(p, id, kind) == p;
    } else {
      var excess := Charged(p, id) + Need(p, id, kind) - Limit(p, kind);
      var q := LeaseTried(p, id, kind);
      assert q == Reclaim(p, excess, |p.lru| - 1);
      ReclaimIsSame(p, excess, q);
    }
  }

  lemma ReclaimIsSame(p: State, excess: int, q: State)
    requires Sound(p) && q == Reclaim(p, excess, |p.lru| - 1)
    ensures SameLoad(p, q)
  {
    ReclaimKeepsSound(p, excess, |p.lru| - 1, q);
    ShrinkingIsSame(p, q);
  }

  lemma EndCloseIsSame(w: World, sid: nat, now: int)
    requires Inv(w) && InShape(w) && Enabled(w, EndClose(sid, now))
    ensures SameLoad(w.pool, Next(w, EndClose(sid, now)).pool)
  {
    assert sid in Holders(w, w.sessions[sid].entry);
    ReturnIsSame(w.pool, w.sessions[sid].entry, w.sessions[sid].poisoned, now);
  }

  lemma CalmIsSame(w: World, step: Step)
    requires Inv(w) && InShape(w) && Enabled(w, step) && Calm(w, step)
    ensures SameLoad(w.pool, Next(w, step).pool)
  {
    match step
    case Checkout(sid, key, now) =>
      AliveHasFS(w.pool, key);
      TakeIsSame(w.pool, key, now);
    case Offer(bid, sid, now) => OfferIsSame(w, bid, sid, now);
    case EndClose(sid, now) => EndCloseIsSame(w, sid, now);
    case TryLease(sid, kind) => WaitIsSame(w.pool, w.sessions[sid].entry, kind);
    case SweepNow(now) => EvictIsSame(w.pool, now);
    case _ =>
  }

  predicate Grants(w: World, step: Step) {
    && step.TryLease? && step.sid in w.sessions && IsEntry(w.pool, w.sessions[step.sid].entry)
    && !w.pool.closed && Admitted(w.pool, w.sessions[step.sid].entry, step.kind)
  }

  lemma {:induction false} OthersAreLighter(w: World, step: Step)
    requires Inv(w) && InShape(w) && Enabled(w, step) && !Grants(w, step)
    ensures Lighter(w.pool, Next(w, step).pool)
  {
    var p, q := w.pool, Next(w, step).pool;
    if Calm(w, step) {
      CalmIsSame(w, step);
      SameIsBoth(p, q);
    } else if step.ClosePool? {
      ShutIsBoth(p);
    } else {
      MovesConnection(w, step);
    }
  }

  /** Only entry `id` moved, and has no more load than before. */
  lemma OneIsLighter(p: State, q: State, id: nat)
    requires IsEntry(p, id) && q.cfg == p.cfg && |q.arena| == |p.arena|
    requires forall k: nat :: IsEntry(p, k) && k != id ==> q.arena[k] == p.arena[k] && (k in q.tracked <==> k in p.tracked)
    requires forall kind: Kind :: Load(q, id).Of(kind) <= Load(p, id).Of(kind)
    requires OpenIsTracked(p) && id !in q.tracked ==> q.arena[id].open == NO_CONNECTIONS
    ensures Lighter(p, q)
  {
    forall k: nat, kind | IsEntry(p, k) ensures Load(q, k).Of(kind) <= Load(p, k).Of(kind) {
      if k != id { assert Load(q, k) == Load(p, k); }
    }
    if OpenIsTracked(p) {
      forall k: nat | IsEntry(q, k) && k !in q.tracked ensures q.arena[k].open == NO_CONNECTIONS {
        assert IsEntry(p, k);
      }
    }
  }

  lemma {:induction false} MovesConnection(w: World, step: Step)
    requires Inv(w) && InShape(w) && Enabled(w, step) && (step.EndLease? || step.Dial? || step.HangUp? || step.Torn?)
    ensures Lighter(w.pool, Next(w, step).pool)
  {
    var p := w.pool;
    match step
    case EndLease(id, kind) => EndLeaseIsLighter(p, id, kind);
    case Dial(id, kind) => DialIsLighter(p, id, kind);
    case HangUp(id, kind) => HangUpIsLighter(p, id, kind);
    case Torn(id) => TornIsLighter(p, id);
  }

  lemma EndLeaseIsLighter(p: State, id: nat, kind: Kind)
    requires IsEntry(p, id) && 0 < p.arena[id].leased.Of(kind)
    ensures Lighter(p, LeaseReturned(p, id, kind))
  {
    OneIsLighter(p, LeaseReturned(p, id, kind), id);
  }

  lemma DialIsLighter(p: State, id: nat, kind: Kind)
    requires IsEntry(p, id) && id in p.tracked && p.arena[id].open.Of(kind) < p.arena[id].leased.Of(kind)
    ensures Lighter(p, Reopened(p, id, p.arena[id].open.Add(kind)))
  {
    OneIsLighter(p, Reopened(p, id, p.arena[id].open.Add(kind)), id);
  }

  lemma TornIsLighter(p: State, id: nat)
    requires IsEntry(p, id)
    ensures Lighter(p, TornDown(p, id))
  {
    OneIsLighter(p, TornDown(p, id), id);
  }

  lemma HangUpIsLighter(p: State, id: nat, kind: Kind)
    requires IsEntry(p, id) && 0 < p.arena[id].open.Of(kind)
    ensures Lighter(p, Reopened(p, id, p.arena[id].open.Less(kind)))
  {
    OneIsLighter(p, Reopened(p, id, p.arena[id].open.Less(kind)), id);
  }

  // ----- The cap -----

  ghost predicate Capped(p: State) {
    && OpenIsTracked(p)
    && TotalCharge(p) <= p.cfg.maxTotal
    && TransferCharge(p) <= p.cfg.maxTotal - METADATA_RESERVE
  }

  lemma {:induction false} ChargeAfterLease(p: State, id: nat, kind: Kind, other: Kind, n: nat)
    requires IsEntry(p, id) && n <= |p.arena| && id in p.tracked
    ensures KindCharge(WithLease(p, id, kind), other, n)
         == KindCharge(p, other, n) + if id < n && kind == other then Need(p, id, kind) else 0
  {
    if 0 < n { ChargeAfterLease(p, id, kind, other, n - 1); }
  }

  lemma GrantKeepsCapped(p: State, id: nat, kind: Kind)
    requires Capped(p) && IsEntry(p, id) && id in p.tracked && Admitted(p, id, kind)
    requires MIN_TOTAL_CONNECTIONS <= p.cfg.maxTotal
    ensures Capped(WithLease(p, id, kind))
  {
    var q, n := WithLease(p, id, kind), |p.arena|;
    ChargeByKind(p, n);
    ChargeByKind(q, n);
    ChargeAfterLease(p, id, kind, Metadata, n);
    ChargeAfterLease(p, id, kind, Transfer, n);
    assert OpenIsTracked(q) by {
      forall k: nat | IsEntry(q, k) && k !in q.tracked ensures q.arena[k].open == NO_CONNECTIONS {
        assert IsEntry(p, k);
      }
    }
  }

  lemma LighterKeepsCapped(p: State, q: State)
    requires Capped(p) && Lighter(p, q)
    ensures Capped(q)
  {
    ChargeByKind(p, |p.arena|);
    ChargeByKind(q, |q.arena|);
    LighterCharge(p, q, Metadata, |q.arena|);
    LighterCharge(p, q, Transfer, |q.arena|);
  }

  lemma StepKeepsCapped(w: World, step: Step)
    requires Inv(w) && InShape(w) && Enabled(w, step) && Capped(w.pool) && MIN_TOTAL_CONNECTIONS <= w.pool.cfg.maxTotal
    ensures Capped(Next(w, step).pool)
  {
    if Grants(w, step) {
      GrantKeepsCapped(w.pool, w.sessions[step.sid].entry, step.kind);
    } else {
      OthersAreLighter(w, step);
      LighterKeepsCapped(w.pool, Next(w, step).pool);
    }
  }

  lemma ConfigStaysOnce(w: World, step: Step)
    requires Inv(w)
    ensures Tried(w, step).pool.cfg == w.pool.cfg
  {
    if InShape(w) && Enabled(w, step) && !Grants(w, step) { OthersAreLighter(w, step); }
  }

  lemma {:induction false} ConfigStays(cfg: Config, steps: seq<Step>)
    ensures After(cfg, steps).pool.cfg == cfg
    decreases |steps|
  {
    if steps != [] {
      ConfigStays(cfg, steps[..|steps| - 1]);
      RunsAreSound(cfg, steps[..|steps| - 1]);
      ConfigStaysOnce(After(cfg, steps[..|steps| - 1]), steps[|steps| - 1]);
    }
  }

  lemma TriedKeepsCapped(w: World, step: Step)
    requires Inv(w) && Capped(w.pool) && MIN_TOTAL_CONNECTIONS <= w.pool.cfg.maxTotal
    ensures Capped(Tried(w, step).pool)
  {
    if InShape(w) && Enabled(w, step) { StepKeepsCapped(w, step); }
  }

  lemma {:induction false} RunsAreCapped(cfg: Config, steps: seq<Step>)
    requires MIN_TOTAL_CONNECTIONS <= cfg.maxTotal
    ensures Capped(After(cfg, steps).pool)
    decreases |steps|
  {
    if steps != [] {
      RunsAreCapped(cfg, steps[..|steps| - 1]);
      ConfigStays(cfg, steps[..|steps| - 1]);
      RunsAreSound(cfg, steps[..|steps| - 1]);
      TriedKeepsCapped(After(cfg, steps[..|steps| - 1]), steps[|steps| - 1]);
    }
  }

  /** Main result: in every run the tracked sessions are charged, and the FileSystems have open, no more
      than the cap, and transfers no more than the cap less the reserve. */
  lemma {:induction false} CapHolds(cfg: Config, steps: seq<Step>, p: State)
    requires MIN_TOTAL_CONNECTIONS <= cfg.maxTotal && p == After(cfg, steps).pool
    ensures Open(p) <= TotalCharge(p) <= cfg.maxTotal
    ensures KindOpen(p, Transfer, |p.arena|) <= TransferCharge(p) <= cfg.maxTotal - METADATA_RESERVE
  {
    RunsAreCapped(cfg, steps);
    ConfigStays(cfg, steps);
    ChargeByKind(p, |p.arena|);
    OpenWithinCharge(p, Metadata, |p.arena|);
    OpenWithinCharge(p, Transfer, |p.arena|);
  }

  /** Main result: transfers by themselves never make a metadata call wait. */
  lemma {:induction false} TransfersNeverBlockMetadata(cfg: Config, steps: seq<Step>, w: World, sid: nat)
    requires MIN_TOTAL_CONNECTIONS <= cfg.maxTotal && w == After(cfg, steps) && sid in w.sessions
    requires MetadataCharge(w.pool) == 0
    ensures IsEntry(w.pool, w.sessions[sid].entry) && Admitted(w.pool, w.sessions[sid].entry, Metadata)
  {
    RunsAreCapped(cfg, steps);
    ConfigStays(cfg, steps);
    ChargeByKind(w.pool, |w.pool.arena|);
    RunsAreSound(cfg, steps);
    HeldIsTracked(w, sid);
  }

  lemma HeldIsTracked(w: World, sid: nat)
    requires Inv(w) && sid in w.sessions
    ensures IsEntry(w.pool, w.sessions[sid].entry) && w.sessions[sid].entry in w.pool.tracked
  {
    assert w.pool.arena[w.sessions[sid].entry].fs.Some?;
  }

  // ----- Below the smallest cap -----

  /** A FileSystem built for the first user. */
  lemma FirstBuild(cfg: Config) returns (front: seq<Step>)
    ensures After(cfg, front) == World(Empty(cfg), map[], map[0 := Build("ann", 0)], 1)
  {
    assert After(cfg, []) == Start(cfg);
    AfterOneMore(cfg, [], StartBuild(0, "ann"));
    front := [] + [StartBuild(0, "ann")];
  }

  lemma FirstEviction(cfg: Config, key: string, fs: nat, now: int)
    ensures Indexed(Insert(Empty(cfg), key, fs, now))
    ensures Evict(Insert(Empty(cfg), key, fs, now), now) == Insert(Empty(cfg), key, fs, now)
  {
    InsertIsIndexed(Empty(cfg), key, fs, now);
    var p := Insert(Empty(cfg), key, fs, now);
    assert Evict(p, now) == EvictFrom(p, now, 0) == EvictFrom(p, now, -1);
  }

  /** The first session of a fresh pool. */
  lemma FirstOffer(cfg: Config) returns (steps: seq<Step>, v: World)
    ensures After(cfg, steps) == v && Fresh(v.pool) && 0 in v.sessions && v.sessions[0].entry == 0
  {
    var front := FirstBuild(cfg);
    AfterOneMore(cfg, front, Offer(0, 0, 0));
    steps := front + [Offer(0, 0, 0)];
    v := After(cfg, steps);
    FirstEviction(cfg, "ann", 0, 0);
    assert v.pool == Insert(Empty(cfg), "ann", 0, 0);
    InsertedIsFresh(cfg, "ann", 0, 0);
  }

  lemma {:induction false} InsertedIsFresh(cfg: Config, key: string, fs: nat, now: int)
    ensures Fresh(Insert(Empty(cfg), key, fs, now))
  {
    var p := Insert(Empty(cfg), key, fs, now);
    var n := |p.arena|;
    assert n == 1 && Unloaded(p.arena[0]);
    IdleChargesNothing(p, n);
  }

  predicate Unloaded(e: Entry) { e.open == NO_CONNECTIONS && e.leased == NO_CONNECTIONS }

  lemma {:induction false} IdleChargesNothing(p: State, n: nat)
    requires n <= |p.arena| && forall i: nat :: i < |p.arena| ==> Unloaded(p.arena[i])
    ensures TrackedCharge(p, n) == 0
  {
    if 0 < n {
      IdleChargesNothing(p, n - 1);
      assert Unloaded(p.arena[n - 1]);
    }
  }

  /** An empty replica admits anything. */
  lemma EmptyAdmits(p: State, id: nat, kind: Kind)
    requires IsEntry(p, id) && id in p.tracked && TotalCharge(p) == 0
    ensures Admitted(p, id, kind)
  {
  }

  /** A pool with a first session in it, nothing open and nothing leased. */
  ghost predicate Fresh(p: State) {
    !p.closed && IsEntry(p, 0) && 0 in p.tracked && Unloaded(p.arena[0]) && TotalCharge(p) == 0
  }

  lemma FreshCharge(p: State)
    requires Fresh(p)
    ensures 0 < TransferCharge(WithLease(p, 0, Transfer))
  {
    ChargeAfterLease(p, 0, Transfer, Transfer, |p.arena|);
  }

  lemma FreshGrants(w: World, sid: nat, kind: Kind)
    requires !w.pool.closed && TotalCharge(w.pool) == 0
    requires sid in w.sessions && IsEntry(w.pool, w.sessions[sid].entry) && w.sessions[sid].entry in w.pool.tracked
    ensures Grants(w, TryLease(sid, kind))
  {
    EmptyAdmits(w.pool, w.sessions[sid].entry, kind);
  }

  lemma GrantIsTaken(cfg: Config, front: seq<Step>, sid: nat, kind: Kind)
    requires Grants(After(cfg, front), TryLease(sid, kind))
    ensures After(cfg, front + [TryLease(sid, kind)]).pool
         == WithLease(After(cfg, front).pool, After(cfg, front).sessions[sid].entry, kind)
  {
    AfterOneMore(cfg, front, TryLease(sid, kind));
  }

  lemma OverByOne(cfg: Config, steps: seq<Step>, p: State)
    requires cfg.maxTotal < MIN_TOTAL_CONNECTIONS && Fresh(p)
    requires After(cfg, steps).pool == WithLease(p, 0, Transfer)
    ensures cfg.maxTotal - METADATA_RESERVE < TransferCharge(After(cfg, steps).pool)
  {
    FreshCharge(p);
  }

  /** With a cap under the minimum, the first transfer of an empty replica is over the bound. */
  lemma FirstTransferIsOver(cfg: Config) returns (steps: seq<Step>)
    requires cfg.maxTotal < MIN_TOTAL_CONNECTIONS
    ensures cfg.maxTotal - METADATA_RESERVE < TransferCharge(After(cfg, steps).pool)
  {
    var front, w := FirstOffer(cfg);
    FreshGrants(w, 0, Transfer);
    GrantIsTaken(cfg, front, 0, Transfer);
    steps := front + [TryLease(0, Transfer)];
    OverByOne(cfg, steps, w.pool);
  }

  /** Main result: the two bounds hold in every run exactly when the cap is at least the documented
      minimum. */
  lemma {:induction false} CapNeedsTheMinimum(cfg: Config)
    ensures MIN_TOTAL_CONNECTIONS <= cfg.maxTotal
       <==> forall steps ::
              && TotalCharge(After(cfg, steps).pool) <= cfg.maxTotal
              && TransferCharge(After(cfg, steps).pool) <= cfg.maxTotal - METADATA_RESERVE
  {
    if MIN_TOTAL_CONNECTIONS <= cfg.maxTotal {
      forall steps
        ensures TotalCharge(After(cfg, steps).pool) <= cfg.maxTotal
        ensures TransferCharge(After(cfg, steps).pool) <= cfg.maxTotal - METADATA_RESERVE
      {
        CapHolds(cfg, steps, After(cfg, steps).pool);
      }
    } else {
      var steps := FirstTransferIsOver(cfg);
    }
  }

  // ----- Waiting and waking -----

  /** Steps that close the channel waiting calls listen on. */
  ghost predicate Frees(w: World, step: Step) {
    Enabled(w, step) && (step.EndLease? || step.Torn? || (step.ClosePool? && !w.pool.closed))
  }

  lemma CalmSignalsNobody(w: World, step: Step)
    requires Inv(w) && InShape(w) && Enabled(w, step) && Calm(w, step)
    ensures !Frees(w, step) && Next(w, step).pool.changed == w.pool.changed
  {
    CalmIsSame(w, step);
  }

  lemma {:induction false} ShutSignals(p: State)
    requires Sound(p)
    ensures Shut(p).changed == p.changed + if p.closed then 0 else 1
  {
    ShutIsSame(p);
  }

  lemma {:induction false} SignalsExactly(w: World, step: Step)
    requires Inv(w) && InShape(w) && Enabled(w, step)
    ensures Next(w, step).pool.changed == w.pool.changed + if Frees(w, step) then 1 else 0
  {
    if Calm(w, step) {
      CalmSignalsNobody(w, step);
    } else if step.ClosePool? {
      ShutSignals(w.pool);
    } else {
      MovingSignals(w, step);
    }
  }

  lemma MovingSignals(w: World, step: Step)
    requires Inv(w) && InShape(w) && Enabled(w, step) && !Calm(w, step) && !step.ClosePool?
    ensures Next(w, step).pool.changed == w.pool.changed + if Frees(w, step) then 1 else 0
  {
    if step.TryLease? {
      assert Next(w, step).pool == WithLease(w.pool, w.sessions[step.sid].entry, step.kind);
    }
  }

  lemma TriedSignals(w: World, step: Step)
    requires Inv(w)
    ensures Tried(w, step).pool.changed == w.pool.changed + if Frees(w, step) then 1 else 0
  {
    SoundIsInShape(w);
    if Enabled(w, step) { SignalsExactly(w, step); }
  }

  /** Some step after the first `i` freed a connection or shut the pool. */
  ghost predicate FreedSince(cfg: Config, steps: seq<Step>, i: nat)
    decreases |steps|
  {
    i < |steps| && (Frees(After(cfg, steps[..|steps| - 1]), steps[|steps| - 1]) || FreedSince(cfg, steps[..|steps| - 1], i))
  }

  /** Some step after the first `i` was the library closing an idle connection. */
  predicate HungUpSince(steps: seq<Step>, i: nat)
    decreases |steps|
  {
    i < |steps| && (steps[|steps| - 1].HangUp? || HungUpSince(steps[..|steps| - 1], i))
  }

  /** Main result: a channel captured after `i` steps has been closed exactly when some later step freed
      a connection or shut the pool. */
  lemma {:induction false} NoSignalIsLost(cfg: Config, steps: seq<Step>, i: nat)
    requires i <= |steps|
    ensures After(cfg, steps[..i]).pool.changed <= After(cfg, steps).pool.changed
    ensures After(cfg, steps[..i]).pool.changed < After(cfg, steps).pool.changed <==> FreedSince(cfg, steps, i)
    decreases |steps|
  {
    if i == |steps| {
      assert steps[..i] == steps;
    } else {
      var front := steps[..|steps| - 1];
      assert front[..i] == steps[..i];
      NoSignalIsLost(cfg, front, i);
      RunsAreSound(cfg, front);
      TriedSignals(After(cfg, front), steps[|steps| - 1]);
    }
  }

  lemma OthersAreHeavier(w: World, step: Step)
    requires Inv(w) && InShape(w) && Enabled(w, step) && !Frees(w, step) && !step.HangUp?
    ensures Heavier(w.pool, Next(w, step).pool)
  {
    var p, q := w.pool, Next(w, step).pool;
    if Calm(w, step) {
      CalmIsSame(w, step);
      SameIsBoth(p, q);
    } else if step.TryLease? {
      LeaseIsHeavier(p, w.sessions[step.sid].entry, step.kind);
    } else {
      assert step.Dial?;
      DialIsHeavier(p, step.id, step.kind);
    }
  }

  lemma LeaseIsHeavier(p: State, id: nat, kind: Kind)
    requires IsEntry(p, id)
    ensures Heavier(p, WithLease(p, id, kind))
  {
    forall k: nat | IsEntry(p, k) ensures HeavierAt(p, WithLease(p, id, kind), k) { }
  }

  lemma DialIsHeavier(p: State, id: nat, kind: Kind)
    requires IsEntry(p, id) && p.arena[id].open.Of(kind) < p.arena[id].leased.Of(kind)
    ensures Heavier(p, Reopened(p, id, p.arena[id].open.Add(kind)))
  {
    forall k: nat | IsEntry(p, k) ensures HeavierAt(p, Reopened(p, id, p.arena[id].open.Add(kind)), k) { }
  }

  lemma HeavierStaysBlocked(p: State, q: State, id: nat, kind: Kind)
    requires Heavier(p, q) && IsEntry(p, id) && !Admitted(p, id, kind)
    ensures !Admitted(q, id, kind)
  {
    HeavierCharge(p, q, |p.arena|, |q.arena|);
    assert HeavierAt(p, q, id);
    assert Need(p, id, kind) == 1 && p.arena[id].open.Of(kind) <= p.arena[id].leased.Of(kind);
    assert Need(q, id, kind) == 1;
    if id in q.tracked && id !in p.tracked {
      TrackedNow(p, q, id);
    }
  }

  /** An entry that was not tracked and now is counts at least what its leases did. */
  lemma TrackedNow(p: State, q: State, id: nat)
    requires Heavier(p, q) && IsEntry(p, id) && id !in p.tracked && id in q.tracked
    ensures TrackedCharge(p, |p.arena|) + p.arena[id].leased.Total() <= TrackedCharge(q, |q.arena|)
  {
    TrackedNowTo(p, q, id, |p.arena|);
    GrowsTo(q, |p.arena|, |q.arena|);
  }

  lemma {:induction false} GrowsTo(q: State, n: nat, m: nat)
    requires n <= m <= |q.arena|
    ensures TrackedCharge(q, n) <= TrackedCharge(q, m)
    decreases m
  {
    if n < m { GrowsTo(q, n, m - 1); }
  }

  lemma {:induction false} TrackedNowTo(p: State, q: State, id: nat, n: nat)
    requires Heavier(p, q) && id < n <= |p.arena| && id !in p.tracked && id in q.tracked
    ensures TrackedCharge(p, n) + p.arena[id].leased.Total() <= TrackedCharge(q, n)
    decreases n
  {
    assert IsEntry(p, n - 1) && HeavierAt(p, q, n - 1);
    if id == n - 1 {
      HeavierCharge(p, q, n - 1, n - 1);
    } else {
      TrackedNowTo(p, q, id, n - 1);
    }
  }

  /** Main result: a call that had to wait would still have to, until a step signals or the library hangs
      up an idle connection on its own, which is what the waiting call polls for. */
  lemma {:induction false} BlockedUntilFreed(cfg: Config, steps: seq<Step>, i: nat, id: nat, kind: Kind)
    requires i <= |steps| && Blocked(After(cfg, steps[..i]).pool, id, kind)
    requires !FreedSince(cfg, steps, i) && !HungUpSince(steps, i)
    ensures Blocked(After(cfg, steps).pool, id, kind)
    decreases |steps|
  {
    if i == |steps| {
      assert steps[..i] == steps;
    } else {
      var front := steps[..|steps| - 1];
      assert front[..i] == steps[..i];
      BlockedUntilFreed(cfg, front, i, id, kind);
      RunsAreSound(cfg, front);
      BlockedByLast(After(cfg, front), steps[|steps| - 1], id, kind);
    }
  }

  ghost predicate Blocked(p: State, id: nat, kind: Kind) { IsEntry(p, id) && !Admitted(p, id, kind) }

  lemma BlockedByLast(w: World, step: Step, id: nat, kind: Kind)
    requires Inv(w) && Blocked(w.pool, id, kind) && !Frees(w, step) && !step.HangUp?
    ensures Blocked(Tried(w, step).pool, id, kind)
  {
    if InShape(w) && Enabled(w, step) {
      OthersAreHeavier(w, step);
      HeavierStaysBlocked(w.pool, Next(w, step).pool, id, kind);
    }
  }
}
