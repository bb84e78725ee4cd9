/** The pool's invariant over all runs, and what it means for the FileSystems. */
module PoolRuns {
  import opened Pools
  import opened PoolSafety

  ghost function Start(cfg: Config): World { World(Empty(cfg), map[], map[], 0) }

  lemma StartsSound(cfg: Config)
    ensures Inv(Start(cfg))
  {
  }

  /** The pool alone moves; nobody is holding more or less. */
  lemma PoolMoves(w: World, q: State)
    requires Inv(w) && Sound(q) && (q.closed ==> q.lru == []) && |q.arena| == |w.pool.arena|
    requires forall k: nat :: IsEntry(w.pool, k) ==>
               && q.arena[k].inUse == w.pool.arena[k].inUse
               && (q.arena[k].fs == w.pool.arena[k].fs || q.arena[k].fs.None?)
    requires forall fs: nat :: Places(q, fs) == Places(w.pool, fs)
    ensures Inv(w.(pool := q))
  {
    var w' := w.(pool := q);
    forall id: nat | IsEntry(q, id) ensures q.arena[id].inUse == |Holders(w', id)| {
      assert IsEntry(w.pool, id) && Holders(w', id) == Holders(w, id);
    }
    forall sid | sid in w.sessions
      ensures IsEntry(q, w.sessions[sid].entry) && q.arena[w.sessions[sid].entry].fs == Some(w.sessions[sid].fs)
    {
      assert IsEntry(w.pool, w.sessions[sid].entry);
      assert sid in Holders(w', w.sessions[sid].entry);
    }
    SamePlaced(w, w');
  }

  lemma {:induction false} PoolShrinks(w: World, q: State)
    requires Inv(w) && Sound(q) && Shrinks(w.pool, q)
    ensures Inv(w.(pool := q))
  {
    if q.lru != [] { assert q.lru[0] in q.lru; }
    forall k: nat | IsEntry(w.pool, k)
      ensures q.arena[k].inUse == w.pool.arena[k].inUse && (q.arena[k].fs == w.pool.arena[k].fs || q.arena[k].fs.None?)
    {
      assert SameUse(w.pool.arena[k], q.arena[k]);
    }
    PoolMoves(w, q);
  }

  lemma EvictKeeps(w: World, now: int)
    requires Inv(w)
    ensures Inv(w.(pool := Evict(w.pool, now)))
  {
    EvictKeepsSound(w.pool, now, |w.pool.lru| - 1);
    PoolShrinks(w, Evict(w.pool, now));
  }

  lemma ReclaimKeeps(w: World, excess: int)
    requires Inv(w)
    ensures Inv(w.(pool := Reclaim(w.pool, excess, |w.pool.lru| - 1)))
  {
    var q := Reclaim(w.pool, excess, |w.pool.lru| - 1);
    ReclaimKeepsSound(w.pool, excess, |w.pool.lru| - 1, q);
    PoolShrinks(w, q);
  }

  lemma {:induction false} ShutKeeps(w: World)
    requires Inv(w)
    ensures Inv(w.(pool := Shut(w.pool)))
  {
    if !w.pool.closed {
      var p := Signal(w.pool.(closed := true));
      KillKeepsPlaces(w.pool, p);
      assert Linked(p) by {
        forall k: nat | IsEntry(p, k) ensures !p.arena[k].dead <==> k in p.lru { assert IsEntry(w.pool, k); }
      }
      assert Stocked(p) by {
        forall k: nat | IsEntry(p, k) ensures p.arena[k].fs.Some? <==> !Idle(p.arena[k]) { assert IsEntry(w.pool, k); }
      }
      ClosingKeepsSound(p);
      var q := UnlinkAll(p);
      forall k: nat | IsEntry(w.pool, k)
        ensures q.arena[k].inUse == w.pool.arena[k].inUse
        ensures q.arena[k].fs == w.pool.arena[k].fs || q.arena[k].fs.None?
      {
        assert IsEntry(p, k) && SameUse(p.arena[k], q.arena[k]);
      }
      PoolMoves(w, q);
    } else {
      assert w.(pool := Shut(w.pool)) == w;
    }
  }

  lemma TweakKeeps(w: World, q: State, id: nat)
    requires Inv(w) && IsEntry(w.pool, id) && |q.arena| == |w.pool.arena| && Tweaked(w.pool.arena[id], q.arena[id])
    requires q == w.pool.(arena := w.pool.arena[id := q.arena[id]], changed := q.changed)
    ensures Inv(w.(pool := q))
  {
    TweakKeepsSound(w.pool, q, id);
    PoolMoves(w, q);
  }

  lemma TornKeepsStocked(p: State, id: nat)
    requires Stocked(p) && id in p.tearing
    ensures Stocked(TornDown(p, id))
  {
    var q := TornDown(p, id);
    forall k: nat | IsEntry(q, k)
      ensures (q.arena[k].fs.Some? <==> !Idle(q.arena[k]))
      ensures q.arena[k].fs.Some? ==> k in q.tracked && q.tracked[k] == q.arena[k].fs.value
      ensures k in q.tearing <==> k in q.tracked && q.arena[k].fs.None?
    {
      assert IsEntry(p, k);
    }
  }

  lemma TornKeepsLinked(p: State, id: nat)
    requires Linked(p) && IsEntry(p, id)
    ensures Linked(TornDown(p, id))
  {
    var q := TornDown(p, id);
    forall k: nat | IsEntry(q, k) ensures !q.arena[k].dead <==> k in q.lru {
      assert IsEntry(p, k);
    }
  }

  lemma TornKeeps(w: World, id: nat)
    requires Inv(w) && id in w.pool.tearing
    ensures Inv(w.(pool := TornDown(w.pool, id)))
  {
    var p, q := w.pool, TornDown(w.pool, id);
    KillKeepsPlaces(p, q);
    TornKeepsLinked(p, id);
    TornKeepsStocked(p, id);
    PoolMoves(w, q);
  }

  lemma GrantKeeps(w: World, id: nat, kind: Kind)
    requires Inv(w) && IsEntry(w.pool, id)
    ensures Inv(w.(pool := WithLease(w.pool, id, kind)))
  {
    TweakKeeps(w, WithLease(w.pool, id, kind), id);
  }

  lemma LeaseKeeps(w: World, id: nat, kind: Kind)
    requires Inv(w) && IsEntry(w.pool, id)
    ensures Inv(w.(pool := LeaseTried(w.pool, id, kind)))
  {
    var p, q := w.pool, LeaseTried(w.pool, id, kind);
    if p.closed {
      assert q == p && w.(pool := p) == w;
    } else if Admitted(p, id, kind) {
      GrantKeeps(w, id, kind);
      assert q == WithLease(p, id, kind);
    } else {
      var excess := Charged(p, id) + Need(p, id, kind) - Limit(p, kind);
      ReclaimKeeps(w, excess);
      assert q == Reclaim(p, excess, |p.lru| - 1);
    }
  }

  // ----- Sessions come and go -----

  lemma HoldersGain(w: World, w': World, sid: nat, s: Session, id: nat)
    requires sid !in w.sessions && w'.sessions == w.sessions[sid := s]
    ensures |Holders(w', id)| == |Holders(w, id)| + if id == s.entry then 1 else 0
  {
    if id == s.entry {
      assert Holders(w', id) == Holders(w, id) + {sid};
    } else {
      assert Holders(w', id) == Holders(w, id);
    }
  }

  lemma HoldersLose(w: World, w': World, sid: nat, id: nat)
    requires sid in w.sessions && w'.sessions == w.sessions - {sid}
    ensures |Holders(w', id)| == |Holders(w, id)| - if id == w.sessions[sid].entry then 1 else 0
  {
    if id == w.sessions[sid].entry {
      HolderGone(w, w', sid);
    } else {
      assert Holders(w', id) == Holders(w, id);
    }
  }

  lemma HolderGone(w: World, w': World, sid: nat)
    requires sid in w.sessions && w'.sessions == w.sessions - {sid}
    ensures var id := w.sessions[sid].entry; |Holders(w', id)| == |Holders(w, id)| - 1
  {
    var id := w.sessions[sid].entry;
    assert Holders(w', id) == Holders(w, id) - {sid} && sid in Holders(w, id);
  }

  lemma TakeKeepsAccounted(w: World, p: State, w': World, key: string, sid: nat, now: int)
    requires Accounted(w) && Sound(p) && key in p.entries && sid !in w.sessions && p.arena == w.pool.arena
    requires w'.pool == TakeEntry(p, key, now)
    requires IsEntry(p, p.entries[key]) && p.arena[p.entries[key]].fs.Some?
    requires w'.sessions == w.sessions[sid := Session(p.entries[key], p.arena[p.entries[key]].fs.value, false, false)]
    ensures Accounted(w')
  {
    var id := p.entries[key];
    forall k: nat | IsEntry(w'.pool, k) ensures w'.pool.arena[k].inUse == |Holders(w', k)| {
      assert IsEntry(w.pool, k);
      HoldersGain(w, w', sid, w'.sessions[sid], k);
    }
    forall s | s in w'.sessions
      ensures IsEntry(w'.pool, w'.sessions[s].entry)
      ensures w'.pool.arena[w'.sessions[s].entry].fs == Some(w'.sessions[s].fs)
    {
      if s != sid { assert IsEntry(w.pool, w.sessions[s].entry); }
    }
  }

  lemma AliveHasFS(p: State, key: string)
    requires Sound(p) && key in p.entries
    ensures IsEntry(p, p.entries[key]) && p.arena[p.entries[key]].fs.Some?
  {
    assert p.entries[key] in p.lru && IsEntry(p, p.entries[key]);
  }

  lemma {:induction false} CheckoutKeeps(w: World, sid: nat, key: string, now: int)
    requires Inv(w) && InShape(w) && Enabled(w, Checkout(sid, key, now))
    ensures Inv(Next(w, Checkout(sid, key, now)))
  {
    var w' := Next(w, Checkout(sid, key, now));
    AliveHasFS(w.pool, key);
    TakeKeepsSound(w.pool, key, now);
    TakeKeepsAccounted(w, w.pool, w', key, sid, now);
    SamePlaced(w, w');
  }

  lemma SurplusKeepsSound(p: State, fs: nat)
    requires Sound(p) && !InEntry(p, fs)
    ensures Sound(Surplus(p, fs))
    ensures forall f: nat :: Places(Surplus(p, fs), f) == Places(p, f) + if f == fs then 1 else 0
  {
    var q := Surplus(p, fs);
    forall f: nat ensures InEntry(q, f) == InEntry(p, f) {
      if InEntry(q, f) {
        var id: nat :| IsEntry(q, id) && q.arena[id].fs == Some(f);
        InOneEntry(p, id, f);
      }
      if InEntry(p, f) {
        var id: nat :| IsEntry(p, id) && p.arena[id].fs == Some(f);
        InOneEntry(q, id, f);
      }
    }
    assert Linked(q) by {
      forall k: nat | IsEntry(q, k) ensures !q.arena[k].dead <==> k in q.lru { assert IsEntry(p, k); }
    }
    assert Stocked(q) by {
      forall k: nat | IsEntry(q, k) ensures q.arena[k].fs.Some? <==> !Idle(q.arena[k]) { assert IsEntry(p, k); }
    }
    assert Owned(q) by {
      forall id: nat, other: nat | IsEntry(q, id) && IsEntry(q, other) && id != other
        ensures q.arena[id].fs == None || q.arena[id].fs != q.arena[other].fs
      {
        assert IsEntry(p, id) && IsEntry(p, other);
      }
    }
  }

  /** The offered FileSystem leaves the builder, so there is room for it in one other place. */
  lemma OfferKeepsPlaced(w: World, w': World, bid: nat)
    requires Placed(w) && bid in w.building && w'.building == w.building - {bid} && w'.built == w.built
    requires forall f: nat :: Places(w'.pool, f) == Places(w.pool, f) + if f == w.building[bid].fs then 1 else 0
    ensures Placed(w')
  {
    var fs := w.building[bid].fs;
    forall f: nat
      ensures Places(w'.pool, f) + (if InBuild(w', f) then 1 else 0) == if f < w'.built then 1 else 0
    {
      assert InBuild(w, fs);
      if InBuild(w', f) {
        var b :| b in w'.building && w'.building[b].fs == f;
        assert b in w.building && InBuild(w, f) && f != fs;
      }
      if InBuild(w, f) && f != fs {
        var b :| b in w.building && w.building[b].fs == f;
        assert b in w'.building;
      }
    }
  }

  lemma OfferedIsNew(w: World, bid: nat)
    requires Inv(w) && bid in w.building
    ensures Places(w.pool, w.building[bid].fs) == 0 && !InEntry(w.pool, w.building[bid].fs)
  {
    assert InBuild(w, w.building[bid].fs);
  }

  lemma OfferWhenClosed(w: World, bid: nat, sid: nat, now: int)
    requires Inv(w) && InShape(w) && Enabled(w, Offer(bid, sid, now)) && w.pool.closed
    ensures Inv(Next(w, Offer(bid, sid, now)))
  {
    var w' := Next(w, Offer(bid, sid, now));
    OfferedIsNew(w, bid);
    SurplusKeepsSound(w.pool, w.building[bid].fs);
    OfferKeepsPlaced(w, w', bid);
    assert Accounted(w') by {
      forall id: nat | IsEntry(w'.pool, id) ensures w'.pool.arena[id].inUse == |Holders(w', id)| {
        assert IsEntry(w.pool, id) && Holders(w', id) == Holders(w, id);
      }
    }
  }

  lemma {:induction false} OfferWhenTaken(w: World, bid: nat, sid: nat, now: int)
    requires Inv(w) && InShape(w) && Enabled(w, Offer(bid, sid, now)) && !w.pool.closed && w.building[bid].key in w.pool.entries
    ensures Inv(Next(w, Offer(bid, sid, now)))
  {
    var w' := Next(w, Offer(bid, sid, now));
    var key, fs := w.building[bid].key, w.building[bid].fs;
    OfferedIsNew(w, bid);
    SurplusKeepsSound(w.pool, fs);
    AliveHasFS(Surplus(w.pool, fs), key);
    TakeKeepsSound(Surplus(w.pool, fs), key, now);
    OfferKeepsPlaced(w, w', bid);
    TakeKeepsAccounted(w, Surplus(w.pool, fs), w', key, sid, now);
  }

  lemma NoHoldersYet(w: World)
    requires Accounted(w)
    ensures Holders(w, |w.pool.arena|) == {}
  {
    forall sid | sid in w.sessions ensures w.sessions[sid].entry != |w.pool.arena| {
      assert IsEntry(w.pool, w.sessions[sid].entry);
    }
  }

  lemma OfferWhenNew(w: World, bid: nat, sid: nat, now: int)
    requires Inv(w) && InShape(w) && Enabled(w, Offer(bid, sid, now)) && !w.pool.closed && w.building[bid].key !in w.pool.entries
    ensures Inv(Next(w, Offer(bid, sid, now)))
  {
    var p, key, fs := w.pool, w.building[bid].key, w.building[bid].fs;
    var q := Insert(p, key, fs, now);
    var m := World(q, w.sessions[sid := Session(|p.arena|, fs, false, false)], w.building - {bid}, w.built);
    OfferedIsNew(w, bid);
    InsertKeepsSound(p, key, fs, now);
    InsertPlaces(p, key, fs, now);
    OfferKeepsPlaced(w, m, bid);
    InsertedIsAccounted(w, m, sid, key, fs, now);
    EvictKeeps(m, now);
    assert Next(w, Offer(bid, sid, now)) == m.(pool := Evict(q, now));
  }

  lemma InsertedIsAccounted(w: World, m: World, sid: nat, key: string, fs: nat, now: int)
    requires Accounted(w) && sid !in w.sessions && m.pool == Insert(w.pool, key, fs, now)
    requires m.sessions == w.sessions[sid := Session(|w.pool.arena|, fs, false, false)]
    ensures Accounted(m)
  {
    NoHoldersYet(w);
    forall id: nat | IsEntry(m.pool, id) ensures m.pool.arena[id].inUse == |Holders(m, id)| {
      HoldersGain(w, m, sid, m.sessions[sid], id);
      if id < |w.pool.arena| { assert IsEntry(w.pool, id); }
    }
    forall s | s in m.sessions
      ensures IsEntry(m.pool, m.sessions[s].entry) && m.pool.arena[m.sessions[s].entry].fs == Some(m.sessions[s].fs)
    {
      if s != sid { assert IsEntry(w.pool, w.sessions[s].entry); }
    }
  }

  lemma {:induction false} FewerIsAccounted(w: World, w': World, sid: nat)
    requires Inv(w) && sid in w.sessions && w'.sessions == w.sessions - {sid}
    requires Stocked(w'.pool) && HoldsFewer(w.pool, w'.pool, w.sessions[sid].entry)
    ensures Accounted(w')
  {
    forall id: nat | IsEntry(w'.pool, id) ensures w'.pool.arena[id].inUse == |Holders(w', id)| {
      HoldersAreFewer(w, w', sid, id);
    }
    forall t | t in w'.sessions
      ensures IsEntry(w'.pool, w'.sessions[t].entry)
      ensures w'.pool.arena[w'.sessions[t].entry].fs == Some(w'.sessions[t].fs)
    {
      OthersStillHold(w, w', sid, t);
    }
  }

  lemma HoldersAreFewer(w: World, w': World, sid: nat, id: nat)
    requires Inv(w) && sid in w.sessions && w'.sessions == w.sessions - {sid}
    requires HoldsFewer(w.pool, w'.pool, w.sessions[sid].entry) && IsEntry(w'.pool, id)
    ensures w'.pool.arena[id].inUse == |Holders(w', id)|
  {
    assert IsEntry(w.pool, id);
    HoldersLose(w, w', sid, id);
  }

  lemma OthersStillHold(w: World, w': World, sid: nat, t: nat)
    requires Inv(w) && sid in w.sessions && w'.sessions == w.sessions - {sid} && t in w'.sessions
    requires Stocked(w'.pool) && HoldsFewer(w.pool, w'.pool, w.sessions[sid].entry)
    ensures IsEntry(w'.pool, w'.sessions[t].entry)
    ensures w'.pool.arena[w'.sessions[t].entry].fs == Some(w'.sessions[t].fs)
  {
    var id := w.sessions[t].entry;
    assert IsEntry(w.pool, id) && t in Holders(w', id);
    HoldersAreFewer(w, w', sid, id);
  }

  lemma SessionGone(w: World, q: State, sid: nat)
    requires Inv(w) && sid in w.sessions && Sound(q) && HoldsFewer(w.pool, q, w.sessions[sid].entry)
    ensures Inv(w.(pool := q, sessions := w.sessions - {sid}))
  {
    var w' := w.(pool := q, sessions := w.sessions - {sid});
    if q.lru != [] { assert q.lru[0] in q.lru; }
    FewerIsAccounted(w, w', sid);
    SamePlaced(w, w');
  }

  lemma {:induction false} EndCloseKeeps(w: World, sid: nat, now: int)
    requires Inv(w) && InShape(w) && Enabled(w, EndClose(sid, now))
    ensures Inv(Next(w, EndClose(sid, now)))
  {
    var s := w.sessions[sid];
    assert sid in Holders(w, s.entry);
    ReturnKeepsSound(w.pool, s.entry, s.poisoned, now);
    SessionGone(w, Returned(w.pool, s.entry, s.poisoned, now), sid);
  }

  lemma RelabelKeepsAccounted(w: World, w': World, sid: nat, s: Session)
    requires Accounted(w) && sid in w.sessions && s.entry == w.sessions[sid].entry && s.fs == w.sessions[sid].fs
    requires w'.pool == w.pool && w'.sessions == w.sessions[sid := s]
    ensures Accounted(w')
  {
    forall id: nat | IsEntry(w.pool, id) ensures w.pool.arena[id].inUse == |Holders(w', id)| {
      assert Holders(w', id) == Holders(w, id);
    }
  }

  lemma RelabelKeeps(w: World, sid: nat, s: Session)
    requires Inv(w) && sid in w.sessions && s.entry == w.sessions[sid].entry && s.fs == w.sessions[sid].fs
    ensures Inv(w.(sessions := w.sessions[sid := s]))
  {
    var w' := w.(sessions := w.sessions[sid := s]);
    RelabelKeepsAccounted(w, w', sid, s);
    SamePlaced(w, w');
  }

  lemma SamePlaced(w: World, w': World)
    requires Placed(w) && w'.building == w.building && w'.built == w.built
    requires forall fs: nat :: Places(w'.pool, fs) == Places(w.pool, fs)
    ensures Placed(w')
  {
    forall fs: nat ensures InBuild(w', fs) == InBuild(w, fs) { }
  }

  lemma BuildKeeps(w: World, bid: nat, key: string)
    requires Inv(w) && bid !in w.building
    ensures Inv(w.(building := w.building[bid := Build(key, w.built)], built := w.built + 1))
  {
    var w' := w.(building := w.building[bid := Build(key, w.built)], built := w.built + 1);
    forall b | b in w.building ensures w.building[b].fs != w.built {
      assert InBuild(w, w.building[b].fs);
    }
    forall fs: nat
      ensures Places(w'.pool, fs) + (if InBuild(w', fs) then 1 else 0) == if fs < w'.built then 1 else 0
    {
      if fs == w.built {
        assert bid in w'.building && w'.building[bid].fs == fs;
      } else {
        if InBuild(w', fs) {
          var b :| b in w'.building && w'.building[b].fs == fs;
          assert b in w.building && w.building[b].fs == fs;
        }
        if InBuild(w, fs) {
          var b :| b in w.building && w.building[b].fs == fs;
          assert b in w'.building && w'.building[b].fs == fs;
        }
      }
    }
    forall id: nat | IsEntry(w'.pool, id) ensures w'.pool.arena[id].inUse == |Holders(w', id)| {
      assert Holders(w', id) == Holders(w, id);
    }
  }

  lemma {:induction false} StepKeepsInv(w: World, step: Step)
    requires Inv(w) && InShape(w) && Enabled(w, step)
    ensures Inv(Next(w, step))
  {
    match step
    case Checkout(sid, key, now) => CheckoutKeeps(w, sid, key, now);
    case StartBuild(bid, key) => BuildKeeps(w, bid, key);
    case Offer(bid, sid, now) =>
      if w.pool.closed {
        OfferWhenClosed(w, bid, sid, now);
      } else if w.building[bid].key in w.pool.entries {
        OfferWhenTaken(w, bid, sid, now);
      } else {
        OfferWhenNew(w, bid, sid, now);
      }
    case Poison(sid) => RelabelKeeps(w, sid, w.sessions[sid].(poisoned := true));
    case BeginClose(sid) => RelabelKeeps(w, sid, w.sessions[sid].(closing := true));
    case EndClose(sid, now) => EndCloseKeeps(w, sid, now);
    case TryLease(sid, kind) => LeaseKeeps(w, w.sessions[sid].entry, kind);
    case EndLease(id, kind) => TweakKeeps(w, LeaseReturned(w.pool, id, kind), id);
    case Dial(id, kind) => TweakKeeps(w, Reopened(w.pool, id, w.pool.arena[id].open.Add(kind)), id);
    case HangUp(id, kind) => TweakKeeps(w, Reopened(w.pool, id, w.pool.arena[id].open.Less(kind)), id);
    case Torn(id) => TornKeeps(w, id);
    case SweepNow(now) => if !w.pool.closed { EvictKeeps(w, now); }
    case ClosePool => ShutKeeps(w);
  }

  // ----- Runs -----

  /** What a step does when it is enabled; otherwise nothing. */
  ghost function Tried(w: World, step: Step): World {
    if InShape(w) && Enabled(w, step) then Next(w, step) else w
  }

  /** The world after some steps, each taken if it was enabled. */
  ghost function After(cfg: Config, steps: seq<Step>): World {
    if steps == [] then Start(cfg) else Tried(After(cfg, steps[..|steps| - 1]), steps[|steps| - 1])
  }

  lemma TriedKeepsInv(w: World, step: Step)
    requires Inv(w)
    ensures Inv(Tried(w, step)) && (Enabled(w, step) ==> Tried(w, step) == Next(w, step))
  {
    SoundIsInShape(w);
    if Enabled(w, step) { StepKeepsInv(w, step); }
  }

  /** Main result: the invariant of the pool and its callers holds in every world any run reaches. */
  lemma {:induction false} RunsAreSound(cfg: Config, steps: seq<Step>)
    ensures Inv(After(cfg, steps))
    decreases |steps|
  {
    if steps == [] {
      StartsSound(cfg);
    } else {
      RunsAreSound(cfg, steps[..|steps| - 1]);
      TriedKeepsInv(After(cfg, steps[..|steps| - 1]), steps[|steps| - 1]);
    }
  }

  lemma AfterOneMore(cfg: Config, front: seq<Step>, step: Step)
    requires Enabled(After(cfg, front), step)
    ensures InShape(After(cfg, front)) && After(cfg, front + [step]) == Next(After(cfg, front), step)
  {
    var steps := front + [step];
    assert steps[..|steps| - 1] == front;
    RunsAreSound(cfg, front);
    SoundIsInShape(After(cfg, front));
  }

  /** Main result: a FileSystem is released at most once, never while a session holds it, and every
      session handed out holds one that its entry still has. */
  lemma {:induction false} ReleasedOnceAndNeverWhileHeld(cfg: Config, steps: seq<Step>, w: World, fs: nat)
    requires w == After(cfg, steps)
    ensures w.pool.releases[fs] <= 1
    ensures (exists sid :: sid in w.sessions && w.sessions[sid].fs == fs) ==> w.pool.releases[fs] == 0
    ensures forall sid :: sid in w.sessions ==>
              IsEntry(w.pool, w.sessions[sid].entry)
              && w.pool.arena[w.sessions[sid].entry].fs == Some(w.sessions[sid].fs)
  {
    RunsAreSound(cfg, steps);
    assert Places(w.pool, fs) <= 1;
    if sid :| sid in w.sessions && w.sessions[sid].fs == fs {
      InOneEntry(w.pool, w.sessions[sid].entry, fs);
    }
  }

  /** Main result: the key index and the list are in bijection, and an entry is alive exactly while in
      them; so no two live ones are for the same user. */
  lemma {:induction false} AliveExactlyWhileLinked(cfg: Config, steps: seq<Step>, w: World, id: nat)
    requires w == After(cfg, steps) && IsEntry(w.pool, id)
    ensures !w.pool.arena[id].dead <==> id in w.pool.lru
    ensures id in w.pool.lru <==> exists key :: key in w.pool.entries && w.pool.entries[key] == id
    ensures forall a, b :: a in w.pool.entries && b in w.pool.entries && w.pool.entries[a] == w.pool.entries[b] ==> a == b
    ensures Distinct(w.pool.lru)
    ensures forall other: nat :: IsEntry(w.pool, other) && other != id && other in w.pool.lru && id in w.pool.lru ==>
              w.pool.arena[other].user != w.pool.arena[id].user
  {
    RunsAreSound(cfg, steps);
  }

  /** Main result: once the pool is closed, every session is back and no FileSystem is still being
      offered, each FileSystem ever built has been released, once. */
  lemma {:induction false} NothingLeaks(cfg: Config, steps: seq<Step>, w: World, fs: nat)
    requires w == After(cfg, steps) && w.pool.closed && w.sessions == map[] && w.building == map[]
    ensures w.pool.releases[fs] == if fs < w.built then 1 else 0
  {
    RunsAreSound(cfg, steps);
    if InEntry(w.pool, fs) {
      var id: nat :| IsEntry(w.pool, id) && w.pool.arena[id].fs == Some(fs);
      UnheldIsIdle(w, id);
    }
    assert !InBuild(w, fs);
  }

  lemma UnheldIsIdle(w: World, id: nat)
    requires Inv(w) && w.pool.closed && w.sessions == map[] && IsEntry(w.pool, id)
    ensures w.pool.arena[id].fs == None
  {
    assert Holders(w, id) == {};
    assert Idle(w.pool.arena[id]);
  }

  /** Main result: whichever session comes back in whatever run, the guards in returning it stay unused. */
  lemma {:induction false} GuardsUnusedInRuns(cfg: Config, steps: seq<Step>, w: World, sid: nat, now: int)
    requires w == After(cfg, steps) && sid in w.sessions
    ensures var id := w.sessions[sid].entry;
            IsEntry(w.pool, id) && (!w.pool.arena[id].dead ==> Reachable(OneFewer(w.pool, id, now), id) && !w.pool.closed)
  {
    RunsAreSound(cfg, steps);
    var id := w.sessions[sid].entry;
    if !w.pool.arena[id].dead {
      GuardsAreNeverNeeded(w.pool, id, now);
    }
  }
}
