/** What becomes of a session's place in the pool: found, handed back well, handed back broken. */
module PoolSessions {
  import opened Pools
  import opened PoolSafety
  import opened PoolRuns
  import opened PoolEviction

  /** Main result: a session that is found is stamped, counts one more holder, and moves to the front; the others
      keep their order, and nothing else changes. */
  lemma {:induction false} FoundGoesToFront(p: State, key: string, now: int, k: nat)
    requires Indexed(p) && key in p.entries && k < |p.lru| && p.lru[k] == p.entries[key]
    ensures var id, q := p.lru[k], TakeEntry(p, key, now);
            && q.lru == [id] + p.lru[..k] + p.lru[k + 1..] && q == p.(lru := q.lru, arena := q.arena)
            && |q.arena| == |p.arena| && (forall other: nat :: IsEntry(p, other) && other != id ==> q.arena[other] == p.arena[other])
            && q.arena[id] == p.arena[id].(lastUsed := now, inUse := p.arena[id].inUse + 1)
  {
    WithoutAt(p.lru, k);
  }

  /** Main result: a new one goes to the front too, held once, with nothing open or leased. */
  lemma {:induction false} NewGoesToFront(p: State, key: string, fs: nat, now: int)
    requires key !in p.entries
    ensures var id, q := |p.arena|, Insert(p, key, fs, now);
            && q.lru == [id] + p.lru && q.entries == p.entries[key := id] && q.tracked == p.tracked[id := fs]
            && |q.arena| == |p.arena| + 1 && (forall other: nat :: IsEntry(p, other) ==> q.arena[other] == p.arena[other])
            && q.arena[id].user == key && q.arena[id].fs == Some(fs) && q.arena[id].lastUsed == now && q.arena[id].inUse == 1
            && !q.arena[id].dead && q.arena[id].leased == Usage(0, 0) == q.arena[id].open
  {
  }

  /** Idle eviction takes only what is free, and only when too many are listed or it is past the timeout. */
  lemma GoneOnlyWhen(p: State, now: int, id: nat)
    requires Indexed(p) && id in p.lru && id !in Evict(p, now).lru
    ensures p.arena[id].inUse == 0
    ensures p.cfg.maxSessions < |p.lru| || p.arena[id].lastUsed < now - p.cfg.idleTimeout
  {
    var k := EvictExactly(p, now);
    GoneFromList(p.arena, p.cfg.maxSessions, now - p.cfg.idleTimeout, p.lru, k, id);
  }

  lemma GoneFromList(a: seq<Entry>, max: int, cutoff: int, ids: seq<nat>, k: nat, id: nat)
    requires k <= |ids| && Fits(a, max, ids, 0, k) && id in ids && id !in Lasting(a, cutoff, ids[..k]) + Busy(a, ids[k..])
    ensures Free(a, id) && (max < |ids| || Stale(a, cutoff, id))
  {
    assert ids == ids[..k] + ids[k..];
    LastingMembers(a, cutoff, ids[..k], id);
    LastingMembers(a, cutoff, ids[k..], id);
    if k < |ids| { BusyIsNoLonger(a, ids[k + 1..]); }
  }

  lemma {:induction false} BusyIsNoLonger(a: seq<Entry>, ids: seq<nat>)
    ensures |Busy(a, ids)| <= |ids|
  {
    if ids != [] { BusyIsNoLonger(a, ids[..|ids| - 1]); }
  }

  lemma CloseIs(cfg: Config, steps: seq<Step>, w: World, sid: nat, now: int) returns (v: World)
    requires w == After(cfg, steps) && sid in w.sessions && w.sessions[sid].closing
    ensures var s := w.sessions[sid];
            && Inv(w) && InShape(w) && IsEntry(w.pool, s.entry) && 0 < w.pool.arena[s.entry].inUse
            && v == After(cfg, steps + [EndClose(sid, now)]) && Inv(v)
            && v == w.(pool := Returned(w.pool, s.entry, s.poisoned, now), sessions := w.sessions - {sid})
  {
    RunsAreSound(cfg, steps);
    AfterOneMore(cfg, steps, EndClose(sid, now));
    v := After(cfg, steps + [EndClose(sid, now)]);
    RunsAreSound(cfg, steps + [EndClose(sid, now)]);
    assert sid in Holders(w, w.sessions[sid].entry);
  }

  /** Main result: a session handed back broken is in no run found again: it is not on the list and no key leads
      to it; and if nobody else held it, its FileSystem has been released, once. */
  lemma {:induction false} BrokenIsDropped(cfg: Config, steps: seq<Step>, w: World, sid: nat, now: int)
    requires w == After(cfg, steps) && sid in w.sessions && w.sessions[sid].closing && w.sessions[sid].poisoned
    ensures var s, p := w.sessions[sid], After(cfg, steps + [EndClose(sid, now)]).pool;
            && s.entry !in p.lru && (forall key :: key in p.entries ==> p.entries[key] != s.entry)
            && IsEntry(w.pool, s.entry) && (w.pool.arena[s.entry].inUse == 1 ==> p.releases[s.fs] == 1)
  {
    var v := CloseIs(cfg, steps, w, sid, now);
    var s := w.sessions[sid];
    BrokenIsDead(w.pool, s.entry, now);
    assert v.pool.arena[s.entry].dead && s.entry !in v.pool.lru;
    ReturnKeepsSound(w.pool, s.entry, true, now);
    if w.pool.arena[s.entry].inUse == 1 {
      LastHolderReleases(w, v, s);
    }
  }

  lemma BrokenIsDead(p: State, id: nat, now: int)
    requires Sound(p) && (p.closed ==> p.lru == []) && IsEntry(p, id)
    ensures var q := Returned(p, id, true, now); IsEntry(q, id) && q.arena[id].dead
  {
    if !p.arena[id].dead {
      GuardsAreNeverNeeded(p, id, now);
    }
  }

  lemma LastHolderReleases(w: World, v: World, s: Session)
    requires Inv(w) && Inv(v) && v.building == w.building && v.built == w.built
    requires IsEntry(w.pool, s.entry) && w.pool.arena[s.entry].fs == Some(s.fs)
    requires HoldsFewer(w.pool, v.pool, s.entry) && v.pool.arena[s.entry].dead && v.pool.arena[s.entry].inUse == 0
    ensures v.pool.releases[s.fs] == 1
  {
    InOneEntry(w.pool, s.entry, s.fs);
    assert Places(w.pool, s.fs) == 1 && Places(v.pool, s.fs) == 1;
    forall k: nat | IsEntry(v.pool, k) ensures v.pool.arena[k].fs != Some(s.fs) {
      assert IsEntry(w.pool, k);
    }
  }

  /** Main result: one handed back well is still there for the next call, while the pool is within its size and
      sessions may be idle for a while: on the list, under its user, with its FileSystem. */
  lemma {:induction false} UnbrokenIsKept(cfg: Config, steps: seq<Step>, w: World, sid: nat, now: int)
    requires w == After(cfg, steps) && sid in w.sessions && w.sessions[sid].closing && !w.sessions[sid].poisoned
    requires var id := w.sessions[sid].entry; id in w.pool.lru
    requires |w.pool.lru| <= w.pool.cfg.maxSessions && 0 <= w.pool.cfg.idleTimeout
    ensures var s, p := w.sessions[sid], After(cfg, steps + [EndClose(sid, now)]).pool;
            && s.entry in p.lru && IsEntry(p, s.entry) && p.arena[s.entry].fs == Some(s.fs)
            && p.arena[s.entry].user in p.entries && p.entries[p.arena[s.entry].user] == s.entry
  {
    var v := CloseIs(cfg, steps, w, sid, now);
    var s := w.sessions[sid];
    KeptOnReturn(w.pool, s.entry, now);
    KeptHasItsPlace(w.pool, v.pool, s.entry, now);
  }

  lemma KeptOnReturn(p: State, id: nat, now: int)
    requires Sound(p) && IsEntry(p, id) && id in p.lru && (p.closed ==> p.lru == []) && 0 < p.arena[id].inUse
    requires |p.lru| <= p.cfg.maxSessions && 0 <= p.cfg.idleTimeout
    ensures id in Returned(p, id, false, now).lru
  {
    var q := OneFewer(p, id, now);
    FewerKeepsSound(p, id, now);
    assert Returned(p, id, false, now) == Evict(q, now);
    if id !in Evict(q, now).lru { GoneOnlyWhen(q, now, id); }
  }

  lemma KeptHasItsPlace(p: State, q: State, id: nat, now: int)
    requires Sound(p) && Sound(q) && IsEntry(p, id) && (p.closed ==> p.lru == []) && 0 < p.arena[id].inUse
    requires q == Returned(p, id, false, now) && id in q.lru
    ensures IsEntry(q, id) && q.arena[id].fs == p.arena[id].fs
    ensures q.arena[id].user in q.entries && q.entries[q.arena[id].user] == id
  {
    ReturnKeepsSound(p, id, false, now);
    assert IsEntry(q, id) && !Idle(q.arena[id]);
  }
}
