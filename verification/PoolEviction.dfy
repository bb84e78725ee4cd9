/** What the two eviction loops evict, without the loops. */
module PoolEviction {
  import opened Pools

  predicate Free(a: seq<Entry>, id: nat) { id < |a| && a[id].inUse == 0 }

  predicate Stale(a: seq<Entry>, cutoff: int, id: nat) { Free(a, id) && a[id].lastUsed < cutoff }

  predicate Idling(a: seq<Entry>, id: nat) { Free(a, id) && 0 < a[id].open.Total() }

  function Holding(a: seq<Entry>, id: nat): nat { if Idling(a, id) then a[id].open.Total() else 0 }

  /** Those in use, in order. */
  function Busy(a: seq<Entry>, ids: seq<nat>): seq<nat> {
    if ids == [] then [] else
      var front, last := ids[..|ids| - 1], ids[|ids| - 1];
      Busy(a, front) + if Free(a, last) then [] else [last]
  }

  /** Those not both free and idle past the timeout, in order. */
  function Lasting(a: seq<Entry>, cutoff: int, ids: seq<nat>): seq<nat> {
    if ids == [] then [] else
      var front, last := ids[..|ids| - 1], ids[|ids| - 1];
      Lasting(a, cutoff, front) + if Stale(a, cutoff, last) then [] else [last]
  }

  /** Those not free with connections open, in order. */
  function Spared(a: seq<Entry>, ids: seq<nat>): seq<nat> {
    if ids == [] then [] else
      var front, last := ids[..|ids| - 1], ids[|ids| - 1];
      Spared(a, front) + if Idling(a, last) then [] else [last]
  }

  /** The connections the others hold between them. */
  function Freed(a: seq<Entry>, ids: seq<nat>): nat {
    if ids == [] then 0 else Freed(a, ids[..|ids| - 1]) + Holding(a, ids[|ids| - 1])
  }

  /** The last of a list is the last of what follows any place in it. */
  lemma Snoc(ids: seq<nat>, k: nat)
    requires k < |ids|
    ensures ids[k..] != [] && ids[k..][..|ids[k..]| - 1] == ids[..|ids| - 1][k..]
    ensures ids[k..][|ids[k..]| - 1] == ids[|ids| - 1]
  {
  }

  lemma BusySnoc(a: seq<Entry>, ids: seq<nat>, k: nat)
    requires k < |ids|
    ensures var front, last := ids[..|ids| - 1], ids[|ids| - 1];
            Busy(a, ids[k..]) == Busy(a, front[k..]) + if Free(a, last) then [] else [last]
  {
    Snoc(ids, k);
  }

  lemma SparedSnoc(a: seq<Entry>, ids: seq<nat>, k: nat)
    requires k < |ids|
    ensures var front, last := ids[..|ids| - 1], ids[|ids| - 1];
            && Spared(a, ids[k..]) == Spared(a, front[k..]) + (if Idling(a, last) then [] else [last])
            && Freed(a, ids[k..]) == Freed(a, front[k..]) + Holding(a, last)
  {
    Snoc(ids, k);
  }

  // ----- The loops as functions of the list -----

  /** Idle eviction of the first part of a list with `behind` more entries kept behind it. */
  function EvictList(a: seq<Entry>, max: int, cutoff: int, ids: seq<nat>, behind: nat): seq<nat> {
    if ids == [] then [] else
      var front, last := ids[..|ids| - 1], ids[|ids| - 1];
      if Free(a, last) && (|ids| + behind > max || Stale(a, cutoff, last))
      then EvictList(a, max, cutoff, front, behind)
      else EvictList(a, max, cutoff, front, behind + 1) + [last]
  }

  function ReclaimList(a: seq<Entry>, excess: int, ids: seq<nat>): seq<nat> {
    if ids == [] || excess <= 0 then ids else
      var front, last := ids[..|ids| - 1], ids[|ids| - 1];
      if Idling(a, last) then ReclaimList(a, excess - Holding(a, last), front)
      else ReclaimList(a, excess, front) + [last]
  }

  /** The entries at the first `n` places are as they were in `a`. */
  ghost predicate AsIn(p: State, a: seq<Entry>, n: int) {
    n <= |p.lru| && forall j :: 0 <= j < n ==> p.lru[j] < |a| == |p.arena| && p.arena[p.lru[j]] == a[p.lru[j]]
  }

  lemma AheadUnchanged(p: State, a: seq<Entry>, i: nat)
    requires Indexed(p) && i < |p.lru| && AsIn(p, a, i + 1)
    ensures AsIn(Unlinked(p, i), a, i)
    ensures Unlinked(p, i).lru[..i] == p.lru[..i] && Unlinked(p, i).lru[i..] == p.lru[i + 1..]
  {
    assert forall j :: 0 <= j < i ==> p.lru[j] != p.lru[i];
  }

  lemma ListStep(s: seq<nat>, i: nat)
    requires i < |s|
    ensures s[..i + 1] != [] && s[..i + 1][..i] == s[..i] && s[..i + 1][i] == s[i]
    ensures s[i..] == [s[i]] + s[i + 1..]
  {
  }

  /** The list a loop has yet to look at, evicted, and the list it has been through. */
  ghost predicate EvictsList(p: State, a: seq<Entry>, now: int, n: nat, lru: seq<nat>)
    requires n <= |p.lru|
  {
    lru == EvictList(a, p.cfg.maxSessions, now - p.cfg.idleTimeout, p.lru[..n], |p.lru| - n) + p.lru[n..]
  }

  lemma EvictsNone(p: State, a: seq<Entry>, now: int)
    ensures EvictsList(p, a, now, 0, p.lru)
  {
    assert p.lru[..0] == [] && p.lru[0..] == p.lru;
  }

  lemma EvictListStep(a: seq<Entry>, max: int, cutoff: int, ids: seq<nat>, i: nat, behind: nat)
    requires i < |ids|
    ensures EvictList(a, max, cutoff, ids[..i + 1], behind)
         == if Free(a, ids[i]) && (i + 1 + behind > max || Stale(a, cutoff, ids[i]))
            then EvictList(a, max, cutoff, ids[..i], behind)
            else EvictList(a, max, cutoff, ids[..i], behind + 1) + [ids[i]]
  {
    ListStep(ids, i);
  }

  /** Whether eviction takes an entry: free, and either too many are listed or it is past the timeout. */
  predicate Goes(p: State, now: int, id: nat)
    requires id < |p.arena|
  {
    p.arena[id].inUse == 0 && (|p.lru| > p.cfg.maxSessions || Expired(p, id, now))
  }

  lemma EvictedBehind(p: State, a: seq<Entry>, now: int, i: nat, lru: seq<nat>)
    requires Indexed(p) && i < |p.lru| && AsIn(p, a, i + 1) && Goes(p, now, p.lru[i])
    requires EvictsList(Unlinked(p, i), a, now, i, lru)
    ensures EvictsList(p, a, now, i + 1, lru)
  {
    AheadUnchanged(p, a, i);
    EvictListStep(a, p.cfg.maxSessions, now - p.cfg.idleTimeout, p.lru, i, |p.lru| - (i + 1));
  }

  lemma StaysBehind(p: State, a: seq<Entry>, now: int, i: nat, lru: seq<nat>)
    requires Indexed(p) && i < |p.lru| && AsIn(p, a, i + 1) && !Goes(p, now, p.lru[i])
    requires EvictsList(p, a, now, i, lru)
    ensures EvictsList(p, a, now, i + 1, lru)
  {
    EvictListStep(a, p.cfg.maxSessions, now - p.cfg.idleTimeout, p.lru, i, |p.lru| - (i + 1));
    ListStep(p.lru, i);
  }

  /** One step of the loop, seen from what it leaves to do. */
  lemma EvictTakesOne(p: State, a: seq<Entry>, now: int, i: nat, next: State, q: State)
    requires Indexed(p) && i < |p.lru| && AsIn(p, a, i + 1) && q == EvictFrom(p, now, i)
    requires Goes(p, now, p.lru[i]) && next == Unlinked(p, i)
    ensures Indexed(next) && i <= |next.lru| && AsIn(next, a, i) && q == EvictFrom(next, now, i - 1)
  {
    AheadUnchanged(p, a, i);
  }

  lemma EvictPassesOne(p: State, a: seq<Entry>, now: int, i: nat, q: State)
    requires Indexed(p) && i < |p.lru| && AsIn(p, a, i + 1) && q == EvictFrom(p, now, i) && !Goes(p, now, p.lru[i])
    ensures AsIn(p, a, i) && q == EvictFrom(p, now, i - 1)
  {
  }

  lemma {:induction false} EvictIsOfList(p: State, a: seq<Entry>, now: int, n: nat, q: State)
    requires Indexed(p) && n <= |p.lru| && AsIn(p, a, n) && q == EvictFrom(p, now, n - 1)
    ensures EvictsList(p, a, now, n, q.lru)
    decreases n
  {
    if n == 0 {
      EvictsNone(p, a, now);
    } else {
      var i: nat := n - 1;
      if Goes(p, now, p.lru[i]) {
        var next := Unlinked(p, i);
        EvictTakesOne(p, a, now, i, next, q);
        EvictIsOfList(next, a, now, i, q);
        EvictedBehind(p, a, now, i, q.lru);
      } else {
        EvictPassesOne(p, a, now, i, q);
        EvictIsOfList(p, a, now, i, q);
        StaysBehind(p, a, now, i, q.lru);
      }
    }
  }

  lemma ReclaimTakesOne(p: State, a: seq<Entry>, excess: int, i: nat, next: State, rest: int, q: State)
    requires Indexed(p) && i < |p.lru| && AsIn(p, a, i + 1) && 0 < excess && q == Reclaim(p, excess, i)
    requires Reclaimable(p, p.lru[i]) && next == Unlinked(p, i) && rest == excess - Holding(a, p.lru[i])
    ensures Indexed(next) && i <= |next.lru| && AsIn(next, a, i) && q == Reclaim(next, rest, i - 1)
  {
    AheadUnchanged(p, a, i);
  }

  lemma ReclaimPassesOne(p: State, a: seq<Entry>, excess: int, i: nat, q: State)
    requires Indexed(p) && i < |p.lru| && AsIn(p, a, i + 1) && 0 < excess && q == Reclaim(p, excess, i)
    requires !Reclaimable(p, p.lru[i])
    ensures AsIn(p, a, i) && q == Reclaim(p, excess, i - 1)
  {
  }

  lemma ReclaimListStep(a: seq<Entry>, excess: int, ids: seq<nat>, i: nat)
    requires i < |ids| && 0 < excess
    ensures ReclaimList(a, excess, ids[..i + 1])
         == if Idling(a, ids[i]) then ReclaimList(a, excess - Holding(a, ids[i]), ids[..i])
            else ReclaimList(a, excess, ids[..i]) + [ids[i]]
  {
    ListStep(ids, i);
  }

  ghost predicate ReclaimsList(p: State, a: seq<Entry>, excess: int, n: nat, lru: seq<nat>)
    requires n <= |p.lru|
  {
    lru == ReclaimList(a, excess, p.lru[..n]) + p.lru[n..]
  }

  lemma ReclaimsNone(p: State, a: seq<Entry>, excess: int, n: nat)
    requires n <= |p.lru| && (n == 0 || excess <= 0)
    ensures ReclaimsList(p, a, excess, n, p.lru)
  {
    assert p.lru[..n] + p.lru[n..] == p.lru;
  }

  lemma ReclaimedBehind(p: State, a: seq<Entry>, excess: int, i: nat, lru: seq<nat>)
    requires Indexed(p) && i < |p.lru| && AsIn(p, a, i + 1) && 0 < excess && Reclaimable(p, p.lru[i])
    requires ReclaimsList(Unlinked(p, i), a, excess - Holding(a, p.lru[i]), i, lru)
    ensures ReclaimsList(p, a, excess, i + 1, lru)
  {
    AheadUnchanged(p, a, i);
    ReclaimListStep(a, excess, p.lru, i);
  }

  lemma KeptBehind(p: State, a: seq<Entry>, excess: int, i: nat, lru: seq<nat>)
    requires Indexed(p) && i < |p.lru| && AsIn(p, a, i + 1) && 0 < excess && !Reclaimable(p, p.lru[i])
    requires ReclaimsList(p, a, excess, i, lru)
    ensures ReclaimsList(p, a, excess, i + 1, lru)
  {
    ReclaimListStep(a, excess, p.lru, i);
    ListStep(p.lru, i);
  }

  lemma {:induction false} ReclaimIsOfList(p: State, a: seq<Entry>, excess: int, n: nat, q: State)
    requires Indexed(p) && n <= |p.lru| && AsIn(p, a, n) && q == Reclaim(p, excess, n - 1)
    ensures ReclaimsList(p, a, excess, n, q.lru)
    decreases n
  {
    if n == 0 || excess <= 0 {
      ReclaimsNone(p, a, excess, n);
    } else {
      var i: nat := n - 1;
      if Reclaimable(p, p.lru[i]) {
        var next, rest := Unlinked(p, i), excess - Holding(a, p.lru[i]);
        ReclaimTakesOne(p, a, excess, i, next, rest, q);
        ReclaimIsOfList(next, a, rest, i, q);
        ReclaimedBehind(p, a, excess, i, q.lru);
      } else {
        ReclaimPassesOne(p, a, excess, i, q);
        ReclaimIsOfList(p, a, excess, i, q);
        KeptBehind(p, a, excess, i, q.lru);
      }
    }
  }

  // ----- Making room -----

  /** Where reclaiming stops: the eviction at `k` covered the excess, or there was nothing left. */
  ghost predicate Covered(a: seq<Entry>, excess: int, ids: seq<nat>, k: nat)
    requires k <= |ids|
  {
    && (excess <= Freed(a, ids[k..]) || k == 0)
    && (k < |ids| && excess <= Freed(a, ids[k..]) ==> Idling(a, ids[k]) && Freed(a, ids[k + 1..]) < excess)
  }

  lemma CoveredStep(a: seq<Entry>, excess: int, ids: seq<nat>, k: nat)
    requires 0 < excess && ids != [] && k < |ids|
    requires Covered(a, excess - Holding(a, ids[|ids| - 1]), ids[..|ids| - 1], k)
    requires k == |ids| - 1 ==> excess <= Holding(a, ids[k]) || k == 0
    ensures Covered(a, excess, ids, k)
  {
    SparedSnoc(a, ids, k);
    if k < |ids| - 1 {
      SparedSnoc(a, ids, k + 1);
    } else {
      assert ids[k + 1..] == [] && ids[..|ids| - 1][k..] == [];
    }
  }

  lemma {:induction false} ReclaimListExactly(a: seq<Entry>, excess: int, ids: seq<nat>) returns (k: nat)
    ensures k <= |ids| && ReclaimList(a, excess, ids) == ids[..k] + Spared(a, ids[k..]) && Covered(a, excess, ids, k)
    ensures k == |ids| ==> excess <= 0 || k == 0
    decreases |ids|
  {
    if ids == [] || excess <= 0 {
      k := |ids|;
      assert ids[k..] == [];
    } else {
      var front, last := ids[..|ids| - 1], ids[|ids| - 1];
      k := ReclaimListExactly(a, excess - Holding(a, last), front);
      CoveredStep(a, excess, ids, k);
      ReclaimListSnoc(a, excess, ids, k);
    }
  }

  lemma ReclaimListSnoc(a: seq<Entry>, excess: int, ids: seq<nat>, k: nat)
    requires ids != [] && 0 < excess && k < |ids|
    requires ReclaimList(a, excess - Holding(a, ids[|ids| - 1]), ids[..|ids| - 1])
          == ids[..|ids| - 1][..k] + Spared(a, ids[..|ids| - 1][k..])
    ensures ReclaimList(a, excess, ids) == ids[..k] + Spared(a, ids[k..])
  {
    SparedSnoc(a, ids, k);
    assert ids[..k] == ids[..|ids| - 1][..k];
  }

  /** Main result: making room evicts, from the least recently used, exactly the free sessions with
      connections open at and behind some place `k`, and either stops with the first eviction that covers
      the excess or has evicted every such session. */
  lemma ReclaimExactly(p: State, excess: int) returns (k: nat)
    requires Indexed(p) && 0 < excess
    ensures k <= |p.lru| && Reclaim(p, excess, |p.lru| - 1).lru == p.lru[..k] + Spared(p.arena, p.lru[k..])
    ensures Covered(p.arena, excess, p.lru, k)
  {
    var n := |p.lru|;
    ReclaimIsOfList(p, p.arena, excess, n, Reclaim(p, excess, n - 1));
    assert p.lru[..n] == p.lru && p.lru[n..] == [];
    k := ReclaimListExactly(p.arena, excess, p.lru);
  }

  // ----- Idle eviction -----

  /** Where the pool comes within its size, going from the back. */
  ghost predicate Fits(a: seq<Entry>, max: int, ids: seq<nat>, behind: nat, k: nat)
    requires k <= |ids|
  {
    && (k == 0 || k + |Busy(a, ids[k..])| + behind <= max)
    && (k < |ids| ==> k + 1 + |Busy(a, ids[k + 1..])| + behind > max)
  }

  lemma {:induction false} EvictListSmall(a: seq<Entry>, max: int, cutoff: int, ids: seq<nat>, behind: nat)
    requires |ids| + behind <= max
    ensures EvictList(a, max, cutoff, ids, behind) == Lasting(a, cutoff, ids)
  {
    if ids != [] {
      var front, last := ids[..|ids| - 1], ids[|ids| - 1];
      EvictListSmall(a, max, cutoff, front, if Stale(a, cutoff, last) then behind else behind + 1);
    }
  }

  lemma FitsStep(a: seq<Entry>, max: int, ids: seq<nat>, behind: nat, k: nat)
    requires k < |ids| && |ids| + behind > max
    requires Fits(a, max, ids[..|ids| - 1], if Free(a, ids[|ids| - 1]) then behind else behind + 1, k)
    ensures Fits(a, max, ids, behind, k)
  {
    BusySnoc(a, ids, k);
    if k < |ids| - 1 {
      BusySnoc(a, ids, k + 1);
    } else {
      assert ids[k + 1..] == [];
    }
  }

  lemma {:induction false} EvictListExactly(a: seq<Entry>, max: int, cutoff: int, ids: seq<nat>, behind: nat)
    returns (k: nat)
    ensures k <= |ids| && EvictList(a, max, cutoff, ids, behind) == Lasting(a, cutoff, ids[..k]) + Busy(a, ids[k..])
    ensures Fits(a, max, ids, behind, k)
    decreases |ids|
  {
    if ids == [] || |ids| + behind <= max {
      k := |ids|;
      EvictListOf(a, max, cutoff, ids, behind);
    } else {
      var front, last := ids[..|ids| - 1], ids[|ids| - 1];
      k := EvictListExactly(a, max, cutoff, front, if Free(a, last) then behind else behind + 1);
      FitsStep(a, max, ids, behind, k);
      BusySnoc(a, ids, k);
      assert ids[..k] == front[..k];
    }
  }

  lemma EvictListOf(a: seq<Entry>, max: int, cutoff: int, ids: seq<nat>, behind: nat)
    requires ids == [] || |ids| + behind <= max
    ensures EvictList(a, max, cutoff, ids, behind) == Lasting(a, cutoff, ids[..|ids|]) + Busy(a, ids[|ids|..])
  {
    assert ids[..|ids|] == ids && ids[|ids|..] == [];
    if ids != [] { EvictListSmall(a, max, cutoff, ids, behind); }
  }

  /** Main result: idle eviction evicts every free session from some place `k` to the back, which is as
      many as it takes to come within the size, and ahead of `k` exactly those idle past the timeout. */
  lemma EvictExactly(p: State, now: int) returns (k: nat)
    requires Indexed(p)
    ensures k <= |p.lru| && Fits(p.arena, p.cfg.maxSessions, p.lru, 0, k)
    ensures Evict(p, now).lru
         == Lasting(p.arena, now - p.cfg.idleTimeout, p.lru[..k]) + Busy(p.arena, p.lru[k..])
  {
    var n := |p.lru|;
    EvictIsOfList(p, p.arena, now, n, Evict(p, now));
    assert p.lru[..n] == p.lru && p.lru[n..] == [];
    k := EvictListExactly(p.arena, p.cfg.maxSessions, now - p.cfg.idleTimeout, p.lru, 0);
  }

  lemma {:induction false} LastingMembers(a: seq<Entry>, cutoff: int, ids: seq<nat>, id: nat)
    ensures id in Lasting(a, cutoff, ids) <==> id in ids && !Stale(a, cutoff, id)
    ensures id in Busy(a, ids) <==> id in ids && !Free(a, id)
    ensures |Lasting(a, cutoff, ids)| <= |ids|
  {
    if ids != [] {
      LastingMembers(a, cutoff, ids[..|ids| - 1], id);
      assert ids == ids[..|ids| - 1] + [ids[|ids| - 1]];
    }
  }

  /** Main result: after idle eviction no free session is past the timeout, and either the pool is within
      its size or every session left is in use. */
  lemma EvictSettles(p: State, now: int, id: nat)
    requires Indexed(p) && id in Evict(p, now).lru
    ensures id in p.lru && !Stale(p.arena, now - p.cfg.idleTimeout, id)
    ensures Free(p.arena, id) ==> |Evict(p, now).lru| <= p.cfg.maxSessions
  {
    var k := EvictExactly(p, now);
    SettledBy(p.arena, p.cfg.maxSessions, now - p.cfg.idleTimeout, p.lru, k, id);
  }

  lemma SettledBy(a: seq<Entry>, max: int, cutoff: int, ids: seq<nat>, k: nat, id: nat)
    requires k <= |ids| && Fits(a, max, ids, 0, k) && id in Lasting(a, cutoff, ids[..k]) + Busy(a, ids[k..])
    ensures id in ids && !Stale(a, cutoff, id)
    ensures Free(a, id) ==> |Lasting(a, cutoff, ids[..k]) + Busy(a, ids[k..])| <= max
  {
    assert ids == ids[..k] + ids[k..];
    LastingMembers(a, cutoff, ids[..k], id);
    LastingMembers(a, cutoff, ids[k..], id);
  }

  /** Main result: a free session that was not past the timeout goes to make room, and leaves the pool
      under its size exactly when one ahead of the place `k` of `EvictExactly` was past the timeout; with
      none, and somebody left ahead of `k`, the pool is left exactly at its size. */
  lemma FreshGoForRoomExactly(p: State, now: int, i: nat) returns (k: nat)
    requires Indexed(p) && i < |p.lru|
    requires p.lru[i] !in Evict(p, now).lru && !Stale(p.arena, now - p.cfg.idleTimeout, p.lru[i])
    ensures k <= i && Fits(p.arena, p.cfg.maxSessions, p.lru, 0, k)
    ensures |Evict(p, now).lru| >= p.cfg.maxSessions
       <==> forall j :: 0 <= j < k ==> !Stale(p.arena, now - p.cfg.idleTimeout, p.lru[j])
    ensures 0 < k ==> |Evict(p, now).lru| <= p.cfg.maxSessions
  {
    var cutoff := now - p.cfg.idleTimeout;
    k := EvictExactly(p, now);
    GoneIsBehind(p.arena, cutoff, p.lru, k, i);
    LeftExactly(p.arena, p.cfg.maxSessions, cutoff, p.lru, k);
  }

  lemma LeftExactly(a: seq<Entry>, max: int, cutoff: int, ids: seq<nat>, k: nat)
    requires k < |ids| && Fits(a, max, ids, 0, k)
    ensures var left := Lasting(a, cutoff, ids[..k]) + Busy(a, ids[k..]);
            && (|left| >= max <==> forall j :: 0 <= j < k ==> !Stale(a, cutoff, ids[j]))
            && (0 < k ==> |left| <= max)
  {
    LastingExactly(a, cutoff, ids[..k]);
    FitsExactly(a, max, ids, k);
    assert forall j :: 0 <= j < k ==> ids[..k][j] == ids[j];
  }

  /** Nothing is lost from a list exactly when nothing in it is past the timeout. */
  lemma {:induction false} LastingExactly(a: seq<Entry>, cutoff: int, ids: seq<nat>)
    ensures |Lasting(a, cutoff, ids)| <= |ids|
    ensures |Lasting(a, cutoff, ids)| == |ids| <==> forall j :: 0 <= j < |ids| ==> !Stale(a, cutoff, ids[j])
  {
    if ids != [] { LastingExactly(a, cutoff, ids[..|ids| - 1]); }
  }

  lemma GoneIsBehind(a: seq<Entry>, cutoff: int, ids: seq<nat>, k: nat, i: nat)
    requires i < |ids| && k <= |ids| && ids[i] !in Lasting(a, cutoff, ids[..k]) && !Stale(a, cutoff, ids[i])
    ensures k <= i
  {
    if i < k { assert ids[..k][i] in ids[..k]; }
    LastingMembers(a, cutoff, ids[..k], ids[i]);
  }

  /** The place is one where the pool comes to its size exactly, or the very front. */
  lemma FitsExactly(a: seq<Entry>, max: int, ids: seq<nat>, k: nat)
    requires k < |ids| && Fits(a, max, ids, 0, k)
    ensures k + |Busy(a, ids[k..])| >= max
    ensures 0 < k ==> k + |Busy(a, ids[k..])| == max
  {
    BusyFront(a, ids[k..]);
    assert ids[k..][1..] == ids[k + 1..];
  }

  lemma {:induction false} BusyFront(a: seq<Entry>, ids: seq<nat>)
    requires ids != []
    ensures |Busy(a, ids)| == |Busy(a, ids[1..])| + if Free(a, ids[0]) then 0 else 1
    decreases |ids|
  {
    var front := ids[..|ids| - 1];
    if |ids| > 1 {
      BusyFront(a, front);
      assert front[1..] == ids[1..][..|ids| - 2] && ids[1..][|ids| - 2] == ids[|ids| - 1];
    } else {
      assert front == [] && ids[1..] == [];
    }
  }
}
