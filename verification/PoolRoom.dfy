/** How room for a connection is made: what is counted, who is admitted, what a call that has to wait evicts, and
    that it need not wait again. */
module PoolRoom {
  import opened Pools
  import opened PoolSafety
  import opened PoolRuns
  import opened PoolEviction

  // ----- Sums over a list, in any order -----

  ghost function SumBelow(f: nat -> nat, s: set<nat>, n: nat): nat {
    if n == 0 then 0 else SumBelow(f, s, n - 1) + if n - 1 in s then f(n - 1) else 0
  }

  ghost function SumOf(f: nat -> nat, ids: seq<nat>): nat {
    if ids == [] then 0 else SumOf(f, ids[..|ids| - 1]) + f(ids[|ids| - 1])
  }

  ghost predicate Lists(ids: seq<nat>, s: set<nat>) { Distinct(ids) && forall x :: x in ids <==> x in s }

  lemma {:induction false} SumBelowLess(f: nat -> nat, s: set<nat>, x: nat, n: nat)
    requires x in s
    ensures SumBelow(f, s, n) == SumBelow(f, s - {x}, n) + if x < n then f(x) else 0
  {
    if n != 0 { SumBelowLess(f, s, x, n - 1); }
  }

  lemma {:induction false} SumOfNone(f: nat -> nat, n: nat)
    ensures SumBelow(f, {}, n) == 0
  {
    if n != 0 { SumOfNone(f, n - 1); }
  }

  lemma {:induction false} SumsAgree(f: nat -> nat, ids: seq<nat>, s: set<nat>, n: nat)
    requires Lists(ids, s) && forall x :: x in s ==> x < n
    ensures SumOf(f, ids) == SumBelow(f, s, n)
    decreases |ids|
  {
    if ids == [] {
      assert s == {};
      SumOfNone(f, n);
    } else {
      var front, last := ids[..|ids| - 1], ids[|ids| - 1];
      ListsFront(ids, s);
      SumsAgree(f, front, s - {last}, n);
      SumBelowLess(f, s, last, n);
    }
  }

  lemma ListsFront(ids: seq<nat>, s: set<nat>)
    requires Lists(ids, s) && ids != []
    ensures ids[|ids| - 1] in s && Lists(ids[..|ids| - 1], s - {ids[|ids| - 1]})
  {
    var front, last := ids[..|ids| - 1], ids[|ids| - 1];
    assert last in ids;
    assert ids == front + [last];
    forall x ensures x in front <==> x in s - {last} {
      if x in front {
        var i :| 0 <= i < |front| && front[i] == x;
        assert ids[i] == x && ids[i] != ids[|ids| - 1];
      }
      if x in s && x != last { assert x in ids; }
    }
  }

  lemma {:induction false} SumBelowSplit(f: nat -> nat, s: set<nat>, g: set<nat>, n: nat)
    requires g <= s
    ensures SumBelow(f, s, n) == SumBelow(f, s - g, n) + SumBelow(f, g, n)
  {
    if n != 0 { SumBelowSplit(f, s, g, n - 1); }
  }

  lemma {:induction false} SumBelowWithin(f: nat -> nat, g: nat -> nat, s: set<nat>, t: set<nat>, n: nat)
    requires s <= t && forall x :: x in s && x < n ==> f(x) <= g(x)
    ensures SumBelow(f, s, n) <= SumBelow(g, t, n)
  {
    if n != 0 { SumBelowWithin(f, g, s, t, n - 1); }
  }

  // ----- What is counted -----

  /** What an entry counts for: in each of its two pools, the larger of what it has open and what is leased. */
  function CostOf(a: seq<Entry>): nat -> nat {
    (k: nat) => if k < |a|
      then (if a[k].open.metadata < a[k].leased.metadata then a[k].leased.metadata else a[k].open.metadata)
           + (if a[k].open.transfer < a[k].leased.transfer then a[k].leased.transfer else a[k].open.transfer)
      else 0
  }

  function OpenOf(a: seq<Entry>): nat -> nat {
    (k: nat) => if k < |a| then a[k].open.metadata + a[k].open.transfer else 0
  }

  lemma {:induction false} TrackedChargeIs(p: State, n: nat)
    requires n <= |p.arena|
    ensures TrackedCharge(p, n) == SumBelow(CostOf(p.arena), p.tracked.Keys, n)
  {
    if n != 0 { TrackedChargeIs(p, n - 1); }
  }

  /** Main result: the count is what the tracked entries cost, in whatever order they are gone through, and
      what the caller's own has leased if that is not among them. */
  lemma {:induction false} ChargedExactly(p: State, id: nat, ids: seq<nat>)
    requires IsEntry(p, id) && Lists(ids, p.tracked.Keys) && forall k :: k in p.tracked ==> IsEntry(p, k)
    ensures Charged(p, id) == SumOf(CostOf(p.arena), ids)
                              + if id in p.tracked then 0 else p.arena[id].leased.metadata + p.arena[id].leased.transfer
  {
    TrackedChargeIs(p, |p.arena|);
    SumsAgree(CostOf(p.arena), ids, p.tracked.Keys, |p.arena|);
  }

  // ----- Who is admitted -----

  /** The pool already has a connection of the kind open for the entry that none of its calls has leased. */
  predicate HasSpare(e: Entry, kind: Kind) {
    if kind == Transfer then e.leased.transfer < e.open.transfer else e.leased.metadata < e.open.metadata
  }

  function CapFor(cfg: Config, kind: Kind): int { if kind == Transfer then cfg.maxTotal - 1 else cfg.maxTotal }

  /** Main result: a call is admitted exactly when it needs no new connection, or there is room for one, or
      nothing is counted at all. */
  lemma AdmittedExactly(p: State, id: nat, kind: Kind)
    requires IsEntry(p, id)
    ensures Admitted(p, id, kind)
       <==> HasSpare(p.arena[id], kind) || Charged(p, id) + 1 <= CapFor(p.cfg, kind) || Charged(p, id) == 0
    ensures Need(p, id, kind) == if HasSpare(p.arena[id], kind) then 0 else 1
  {
  }

  /** What a granted call leases: one more connection of its kind, and nothing else changes. */
  lemma GrantedExactly(p: State, id: nat, kind: Kind)
    requires Indexed(p) && IsEntry(p, id) && !p.closed && Admitted(p, id, kind)
    ensures var q, e := LeaseTried(p, id, kind), p.arena[id];
            && q == p.(arena := q.arena) && |q.arena| == |p.arena|
            && (forall k: nat :: IsEntry(p, k) && k != id ==> q.arena[k] == p.arena[k])
            && q.arena[id] == e.(leased := if kind == Transfer then Usage(e.leased.metadata, e.leased.transfer + 1)
                                           else Usage(e.leased.metadata + 1, e.leased.transfer))
  {
  }

  /** Main result: giving a lease back undoes taking it, and wakes whoever waits. */
  lemma LeaseAndReturn(p: State, id: nat, kind: Kind)
    requires Indexed(p) && IsEntry(p, id) && !p.closed && Admitted(p, id, kind)
    ensures var q := LeaseTried(p, id, kind);
            IsEntry(q, id) && 0 < q.arena[id].leased.Of(kind) && LeaseReturned(q, id, kind) == p.(changed := p.changed + 1)
  {
    GrantedExactly(p, id, kind);
    var back := LeaseReturned(LeaseTried(p, id, kind), id, kind);
    assert back.arena[id] == p.arena[id];
    assert back.arena == p.arena;
  }

  // ----- What a call that has to wait evicts -----

  /** Those of a list that are free with connections open, in order. */
  function Idlers(a: seq<Entry>, ids: seq<nat>): seq<nat> {
    if ids == [] then [] else
      var front, last := ids[..|ids| - 1], ids[|ids| - 1];
      Idlers(a, front) + if Idling(a, last) then [last] else []
  }

  lemma {:induction false} IdleAre(a: seq<Entry>, ids: seq<nat>, x: nat)
    ensures x in Idlers(a, ids) <==> x in ids && Idling(a, x)
  {
    if ids != [] {
      IdleAre(a, ids[..|ids| - 1], x);
      assert ids == ids[..|ids| - 1] + [ids[|ids| - 1]];
    }
  }

  lemma {:induction false} SparedAre(a: seq<Entry>, ids: seq<nat>, x: nat)
    ensures x in Spared(a, ids) <==> x in ids && !Idling(a, x)
  {
    if ids != [] {
      SparedAre(a, ids[..|ids| - 1], x);
      assert ids == ids[..|ids| - 1] + [ids[|ids| - 1]];
    }
  }

  lemma LastIsNew(ids: seq<nat>)
    requires Distinct(ids) && ids != []
    ensures ids[|ids| - 1] !in ids[..|ids| - 1] && Distinct(ids[..|ids| - 1])
  {
  }

  lemma PartsAreApart(ids: seq<nat>, k: nat, x: nat)
    requires Distinct(ids) && k <= |ids| && x in ids[..k]
    ensures x !in ids[k..]
  {
    var rest := ids[k..];
    assert forall j :: 0 <= j < |rest| ==> rest[j] == ids[k + j];
  }

  lemma {:induction false} IdlersAreDistinct(a: seq<Entry>, ids: seq<nat>)
    requires Distinct(ids)
    ensures Distinct(Idlers(a, ids))
  {
    if ids != [] {
      var front, last := ids[..|ids| - 1], ids[|ids| - 1];
      IdlersAreDistinct(a, front);
      IdleAre(a, front, last);
      LastIsNew(ids);
    }
  }

  lemma {:induction false} IdlersHold(a: seq<Entry>, ids: seq<nat>)
    ensures SumOf(OpenOf(a), Idlers(a, ids)) == Freed(a, ids)
  {
    if ids != [] {
      var front, last := ids[..|ids| - 1], ids[|ids| - 1];
      IdlersHold(a, front);
      var idle := Idlers(a, ids);
      if Idling(a, last) {
        assert idle[..|idle| - 1] == Idlers(a, front) && idle[|idle| - 1] == last;
        assert OpenOf(a)(last) == Holding(a, last);
      } else {
        assert idle == Idlers(a, front);
      }
    }
  }

  /** Nothing listed is free with a connection open. */
  ghost predicate NobodyIdles(p: State) {
    forall x :: x in p.lru && x < |p.arena| ==>
      !(p.arena[x].inUse == 0 && 0 < p.arena[x].open.metadata + p.arena[x].open.transfer)
  }

  /** Who has left the list once its part from `k` on was gone through. */
  lemma LeftFrom(p: State, lru: seq<nat>, k: nat, x: nat)
    requires Indexed(p) && k <= |p.lru| && lru == p.lru[..k] + Spared(p.arena, p.lru[k..])
    ensures x in p.lru && x !in lru <==> x in Idlers(p.arena, p.lru[k..])
  {
    IdleAre(p.arena, p.lru[k..], x);
    SparedAre(p.arena, p.lru[k..], x);
    assert p.lru == p.lru[..k] + p.lru[k..];
    if x in p.lru[..k] { PartsAreApart(p.lru, k, x); }
  }

  lemma NobodyIdlesAfter(p: State, q: State)
    requires Indexed(p) && Shrinks(p, q) && q.lru == Spared(p.arena, p.lru)
    ensures NobodyIdles(q)
  {
    forall x | x in q.lru && x < |q.arena|
      ensures !(q.arena[x].inUse == 0 && 0 < q.arena[x].open.metadata + q.arena[x].open.transfer)
    {
      SparedAre(p.arena, p.lru, x);
      assert IsEntry(p, x) && SameUse(p.arena[x], q.arena[x]);
    }
  }

  lemma ReclaimMakesRoom(p: State, excess: int, q: State) returns (gone: seq<nat>)
    requires Sound(p) && 0 < excess && q == Reclaim(p, excess, |p.lru| - 1)
    ensures Distinct(gone) && forall x :: x in gone <==> x in p.lru && x !in q.lru
    ensures forall x :: x in gone ==> Idling(p.arena, x)
    ensures NobodyIdles(q) || excess <= SumOf(OpenOf(p.arena), gone)
  {
    var k := ReclaimExactly(p, excess);
    gone := Idlers(p.arena, p.lru[k..]);
    GoneFrom(p, q.lru, k, gone);
    IdlersHold(p.arena, p.lru[k..]);
    if k == 0 {
      assert p.lru[..0] == [] && p.lru[0..] == p.lru && q.lru == Spared(p.arena, p.lru);
      ReclaimKeepsSound(p, excess, |p.lru| - 1, q);
      NobodyIdlesAfter(p, q);
    }
  }

  lemma GoneFrom(p: State, lru: seq<nat>, k: nat, gone: seq<nat>)
    requires Indexed(p) && k <= |p.lru| && lru == p.lru[..k] + Spared(p.arena, p.lru[k..]) && gone == Idlers(p.arena, p.lru[k..])
    ensures Distinct(gone) && forall x :: x in gone <==> x in p.lru && x !in lru
    ensures forall x :: x in gone ==> Idling(p.arena, x)
  {
    forall x ensures x in gone <==> x in p.lru && x !in lru {
      LeftFrom(p, lru, k, x);
    }
    forall x | x in gone ensures Idling(p.arena, x) {
      IdleAre(p.arena, p.lru[k..], x);
    }
    IdlersAreDistinct(p.arena, p.lru[k..]);
  }

  /** Main result: an attempt on an open pool that is not admitted evicts sessions that are free with
      connections open, until what they hold covers what is missing or there are no more of them. */
  lemma {:induction false} WaitingReclaims(p: State, id: nat, kind: Kind) returns (gone: seq<nat>)
    requires Sound(p) && IsEntry(p, id) && !p.closed
    requires !HasSpare(p.arena[id], kind) && CapFor(p.cfg, kind) < Charged(p, id) + 1 && Charged(p, id) != 0
    ensures Distinct(gone) && forall x :: x in gone <==> x in p.lru && x !in LeaseTried(p, id, kind).lru
    ensures forall x :: x in gone ==> IsEntry(p, x) && p.arena[x].inUse == 0 && 0 < p.arena[x].open.metadata + p.arena[x].open.transfer
    ensures NobodyIdles(LeaseTried(p, id, kind))
            || Charged(p, id) + 1 - CapFor(p.cfg, kind) <= SumOf(OpenOf(p.arena), gone)
  {
    AdmittedExactly(p, id, kind);
    var excess := Charged(p, id) + 1 - CapFor(p.cfg, kind);
    var q := LeaseTried(p, id, kind);
    assert q == Reclaim(p, excess, |p.lru| - 1);
    gone := ReclaimMakesRoom(p, excess, q);
  }

  // ----- And that it need not wait again -----

  /** Once the Release calls of all of `xs` have come back. */
  ghost function TornAll(p: State, xs: seq<nat>): (q: State)
    requires forall x :: x in xs ==> IsEntry(p, x)
    ensures |q.arena| == |p.arena|
  {
    if xs == [] then p else
      var last := xs[|xs| - 1];
      assert last in xs && IsEntry(p, last);
      TornDown(TornAll(p, xs[..|xs| - 1]), last)
  }

  lemma {:induction false} TornAllAt(p: State, xs: seq<nat>, k: nat)
    requires (forall x :: x in xs ==> IsEntry(p, x)) && IsEntry(p, k)
    ensures var q := TornAll(p, xs);
            && q.lru == p.lru && q.closed == p.closed && q.cfg == p.cfg
            && (k in q.tracked <==> k in p.tracked && k !in xs) && (k in q.tearing <==> k in p.tearing && k !in xs)
            && q.arena[k] == if k in xs then p.arena[k].(open := NO_CONNECTIONS) else p.arena[k]
    decreases |xs|
  {
    if xs != [] {
      TornAllAt(p, xs[..|xs| - 1], k);
      assert xs == xs[..|xs| - 1] + [xs[|xs| - 1]];
    }
  }

  lemma {:induction false} TornAllTracks(p: State, xs: seq<nat>)
    requires forall x :: x in xs ==> IsEntry(p, x)
    ensures TornAll(p, xs).tracked.Keys <= p.tracked.Keys && TornAll(p, xs).cfg == p.cfg
    decreases |xs|
  {
    if xs != [] { TornAllTracks(p, xs[..|xs| - 1]); }
  }

  lemma {:induction false} SumOfZeros(f: nat -> nat, s: set<nat>, n: nat)
    requires forall x :: x in s ==> f(x) == 0
    ensures SumBelow(f, s, n) == 0
  {
    if n != 0 { SumOfZeros(f, s, n - 1); }
  }

  /** Everybody but `id` is free, with nothing leased. */
  ghost predicate OthersAreFree(p: State, id: nat) {
    forall k: nat :: IsEntry(p, k) && k != id ==> p.arena[k].inUse == 0 && p.arena[k].leased == NO_CONNECTIONS
  }

  /** The pool after an attempt and the teardown of everything evicted. */
  ghost predicate TornAfter(p: State, id: nat, q: State, xs: seq<nat>, r: State) {
    && Sound(p) && Sound(q) && Shrinks(p, q) && IsEntry(p, id) && 0 < p.arena[id].inUse && OthersAreFree(p, id)
    && Lists(xs, q.tearing) && (forall x :: x in xs ==> IsEntry(q, x)) && r == TornAll(q, xs)
  }

  lemma OwnStays(p: State, id: nat, q: State, xs: seq<nat>, r: State)
    requires TornAfter(p, id, q, xs, r)
    ensures id in p.tracked && id in r.tracked && IsEntry(r, id) && r.cfg == p.cfg
    ensures r.arena[id].open == p.arena[id].open && r.arena[id].leased == p.arena[id].leased
  {
    assert SameUse(p.arena[id], q.arena[id]) && IsEntry(q, id) && !Idle(q.arena[id]);
    TornAllAt(q, xs, id);
  }

  /** Whatever else is still tracked is on the list, as it was. */
  lemma OtherIsListed(p: State, id: nat, q: State, xs: seq<nat>, r: State, k: nat)
    requires TornAfter(p, id, q, xs, r) && k in r.tracked && k != id
    ensures IsEntry(p, k) && k in p.tracked && k in q.lru && r.arena[k] == q.arena[k]
    ensures q.arena[k].open == p.arena[k].open && q.arena[k].leased == NO_CONNECTIONS && q.arena[k].inUse == 0
  {
    TornAllTracks(q, xs);
    assert k in q.tracked && IsEntry(q, k);
    TornAllAt(q, xs, k);
    assert IsEntry(p, k) && SameUse(p.arena[k], q.arena[k]);
    assert q.arena[k].fs.Some? && !Idle(q.arena[k]);
  }

  lemma OwnChargeOnly(p: State, id: nat, q: State, xs: seq<nat>, r: State)
    requires TornAfter(p, id, q, xs, r) && NobodyIdles(q)
    ensures IsEntry(r, id) && Charged(r, id) == CostOf(p.arena)(id)
  {
    OwnStays(p, id, q, xs, r);
    var f, s := CostOf(r.arena), r.tracked.Keys;
    TrackedChargeIs(r, |r.arena|);
    SumBelowLess(f, s, id, |r.arena|);
    forall k | k in s - {id} ensures f(k) == 0 {
      OtherIsListed(p, id, q, xs, r, k);
    }
    SumOfZeros(f, s - {id}, |r.arena|);
  }

  /** What has left the list is no longer tracked. */
  lemma GoneIsTorn(p: State, id: nat, q: State, xs: seq<nat>, r: State, x: nat)
    requires TornAfter(p, id, q, xs, r) && x in p.lru && x !in q.lru && x != id
    ensures IsEntry(p, x) && x in p.tracked && x !in r.tracked
    ensures CostOf(p.arena)(x) == OpenOf(p.arena)(x)
  {
    assert IsEntry(p, x) && IsEntry(q, x) && SameUse(p.arena[x], q.arena[x]);
    TornAllAt(q, xs, x);
  }

  lemma CoveredCharge(p: State, id: nat, q: State, xs: seq<nat>, r: State, gone: seq<nat>)
    requires TornAfter(p, id, q, xs, r)
    requires Distinct(gone) && forall x :: x in gone ==> x in p.lru && x !in q.lru && x != id
    ensures IsEntry(r, id) && Charged(r, id) + SumOf(OpenOf(p.arena), gone) <= Charged(p, id)
  {
    OwnStays(p, id, q, xs, r);
    var n, f, t := |p.arena|, CostOf(p.arena), p.tracked.Keys;
    var g := set x | x in gone;
    GoneWereTracked(p, id, q, xs, r, gone, g);
    TrackedChargeIs(p, n);
    TrackedChargeIs(r, n);
    SumBelowSplit(f, t, g, n);
    TornAllTracks(q, xs);
    LeftCostLess(p, id, q, xs, r, t - g);
  }

  lemma GoneWereTracked(p: State, id: nat, q: State, xs: seq<nat>, r: State, gone: seq<nat>, g: set<nat>)
    requires TornAfter(p, id, q, xs, r) && Lists(gone, g) && forall x :: x in gone ==> x in p.lru && x !in q.lru && x != id
    ensures g <= p.tracked.Keys && g !! r.tracked.Keys
    ensures SumOf(OpenOf(p.arena), gone) <= SumBelow(CostOf(p.arena), g, |p.arena|)
  {
    forall x | x in g
      ensures x in p.tracked && x < |p.arena| && x !in r.tracked && CostOf(p.arena)(x) == OpenOf(p.arena)(x)
    {
      GoneIsTorn(p, id, q, xs, r, x);
    }
    SumsAgree(OpenOf(p.arena), gone, g, |p.arena|);
    SumBelowWithin(OpenOf(p.arena), CostOf(p.arena), g, g, |p.arena|);
  }

  lemma LeftCostLess(p: State, id: nat, q: State, xs: seq<nat>, r: State, left: set<nat>)
    requires TornAfter(p, id, q, xs, r) && r.tracked.Keys <= left
    ensures SumBelow(CostOf(r.arena), r.tracked.Keys, |p.arena|) <= SumBelow(CostOf(p.arena), left, |p.arena|)
  {
    forall k | k in r.tracked.Keys ensures CostOf(r.arena)(k) <= CostOf(p.arena)(k) {
      CostsNoMore(p, id, q, xs, r, k);
    }
    SumBelowWithin(CostOf(r.arena), CostOf(p.arena), r.tracked.Keys, left, |p.arena|);
  }

  lemma CostsNoMore(p: State, id: nat, q: State, xs: seq<nat>, r: State, k: nat)
    requires TornAfter(p, id, q, xs, r) && k in r.tracked
    ensures CostOf(r.arena)(k) <= CostOf(p.arena)(k)
  {
    if k == id {
      OwnStays(p, id, q, xs, r);
      SameCost(r.arena, p.arena, k);
    } else {
      OtherKeepsLoad(p, id, q, xs, r, k);
      SameCost(r.arena, p.arena, k);
    }
  }

  lemma OtherKeepsLoad(p: State, id: nat, q: State, xs: seq<nat>, r: State, k: nat)
    requires TornAfter(p, id, q, xs, r) && k in r.tracked && k != id
    ensures k < |r.arena| == |p.arena| && r.arena[k].open == p.arena[k].open && r.arena[k].leased == p.arena[k].leased
  {
    OtherIsListed(p, id, q, xs, r, k);
  }

  lemma SameCost(a: seq<Entry>, b: seq<Entry>, k: nat)
    requires k < |a| && k < |b| && a[k].open == b[k].open && a[k].leased == b[k].leased
    ensures CostOf(a)(k) == CostOf(b)(k)
  {
  }

  lemma OwnIsCharged(p: State, id: nat)
    requires IsEntry(p, id) && id in p.tracked
    ensures CostOf(p.arena)(id) <= Charged(p, id)
  {
    TrackedChargeIs(p, |p.arena|);
    SumBelowLess(CostOf(p.arena), p.tracked.Keys, id, |p.arena|);
  }

  /** Main result: when everybody else is free, a call that had to wait is admitted once all that is being torn
      down is gone, exactly when its own session alone leaves it room. */
  lemma {:induction false} RoomAfterTearing(p: State, id: nat, kind: Kind, xs: seq<nat>)
    requires Sound(p) && IsEntry(p, id) && 0 < p.arena[id].inUse && !p.closed && OthersAreFree(p, id)
    requires !Admitted(p, id, kind)
    requires Lists(xs, LeaseTried(p, id, kind).tearing)
    ensures forall x :: x in xs ==> IsEntry(LeaseTried(p, id, kind), x)
    ensures var r := TornAll(LeaseTried(p, id, kind), xs); var own := CostOf(p.arena)(id);
            IsEntry(r, id) && (Admitted(r, id, kind) <==> own == 0 || own + 1 <= CapFor(p.cfg, kind))
  {
    AdmittedExactly(p, id, kind);
    var q := LeaseTried(p, id, kind);
    RefusedShrinks(p, id, kind, q);
    var gone := WaitingReclaims(p, id, kind);
    RoomOnceTorn(p, id, kind, q, xs, TornAll(q, xs), gone);
  }

  lemma RefusedShrinks(p: State, id: nat, kind: Kind, q: State)
    requires Sound(p) && IsEntry(p, id) && !p.closed && !Admitted(p, id, kind) && q == LeaseTried(p, id, kind)
    ensures Sound(q) && Shrinks(p, q)
  {
    ReclaimKeepsSound(p, Charged(p, id) + Need(p, id, kind) - Limit(p, kind), |p.lru| - 1, q);
  }

  lemma RoomOnceTorn(p: State, id: nat, kind: Kind, q: State, xs: seq<nat>, r: State, gone: seq<nat>)
    requires TornAfter(p, id, q, xs, r) && !HasSpare(p.arena[id], kind)
    requires Distinct(gone) && forall x :: x in gone ==> x in p.lru && x !in q.lru && x != id
    requires NobodyIdles(q) || Charged(p, id) + 1 - CapFor(p.cfg, kind) <= SumOf(OpenOf(p.arena), gone)
    ensures var own := CostOf(p.arena)(id);
            IsEntry(r, id) && (Admitted(r, id, kind) <==> own == 0 || own + 1 <= CapFor(p.cfg, kind))
  {
    OwnCounts(p, id, q, xs, r, kind);
    AdmittedExactly(r, id, kind);
    if NobodyIdles(q) {
      OwnChargeOnly(p, id, q, xs, r);
    } else {
      CoveredCharge(p, id, q, xs, r, gone);
    }
  }

  lemma OwnCounts(p: State, id: nat, q: State, xs: seq<nat>, r: State, kind: Kind)
    requires TornAfter(p, id, q, xs, r)
    ensures IsEntry(r, id) && r.cfg == p.cfg && HasSpare(r.arena[id], kind) == HasSpare(p.arena[id], kind)
    ensures CostOf(p.arena)(id) <= Charged(r, id)
  {
    OwnStays(p, id, q, xs, r);
    OwnIsCharged(r, id);
  }

  function Tears(xs: seq<nat>): seq<Step> {
    if xs == [] then [] else Tears(xs[..|xs| - 1]) + [Torn(xs[|xs| - 1])]
  }

  lemma {:induction false} TearsRun(cfg: Config, steps: seq<Step>, w: World, xs: seq<nat>)
    requires w == After(cfg, steps) && Distinct(xs) && (forall x :: x in xs ==> x in w.pool.tearing)
    ensures forall x :: x in xs ==> IsEntry(w.pool, x)
    ensures After(cfg, steps + Tears(xs)) == w.(pool := TornAll(w.pool, xs))
    decreases |xs|
  {
    RunsAreSound(cfg, steps);
    if xs == [] {
      assert steps + Tears(xs) == steps;
    } else {
      var front, last := xs[..|xs| - 1], xs[|xs| - 1];
      TearsRun(cfg, steps, w, front);
      LastIsNew(xs);
      assert last in xs && last in w.pool.tearing;
      TornAllAt(w.pool, front, last);
      AfterOneMore(cfg, steps + Tears(front), Torn(last));
      assert steps + Tears(xs) == steps + Tears(front) + [Torn(last)];
    }
  }

  /** Main result: in any run, a call that had to wait while every other session was free, with nothing leased,
      is granted its lease at the next attempt once all that is being torn down has gone, exactly when what its
      own session counts for leaves it room. */
  lemma {:induction false} NextAttemptIsGranted(cfg: Config, steps: seq<Step>, w: World, sid: nat, kind: Kind, xs: seq<nat>)
    requires w == After(cfg, steps) && sid in w.sessions && !w.pool.closed
    requires var id := w.sessions[sid].entry; IsEntry(w.pool, id) && OthersAreFree(w.pool, id)
    requires var id := w.sessions[sid].entry; var tried := After(cfg, steps + [TryLease(sid, kind)]).pool;
             IsEntry(tried, id) && tried.arena[id].leased == w.pool.arena[id].leased && Lists(xs, tried.tearing)
    ensures var id := w.sessions[sid].entry; var e := w.pool.arena[id];
            var torn := steps + [TryLease(sid, kind)] + Tears(xs); var now := After(cfg, torn + [TryLease(sid, kind)]).pool;
            && IsEntry(now, id)
            && (now.arena[id].leased == e.leased.Add(kind)
                <==> CostOf(w.pool.arena)(id) == 0 || CostOf(w.pool.arena)(id) + 1 <= CapFor(w.pool.cfg, kind))
  {
    var id, p := w.sessions[sid].entry, w.pool;
    HeldInPool(cfg, steps, w, sid);
    var tried := AttemptIs(cfg, steps, w, sid, kind);
    var torn := TearsIs(cfg, steps + [TryLease(sid, kind)], tried, xs);
    HeldInPool(cfg, steps + [TryLease(sid, kind)] + Tears(xs), torn, sid);
    var again := AttemptIs(cfg, steps + [TryLease(sid, kind)] + Tears(xs), torn, sid, kind);
    GrantedNext(p, id, kind, xs, tried.pool, torn.pool, again.pool);
  }

  lemma TearsIs(cfg: Config, steps: seq<Step>, w: World, xs: seq<nat>) returns (v: World)
    requires w == After(cfg, steps) && Lists(xs, w.pool.tearing)
    ensures forall x :: x in xs ==> IsEntry(w.pool, x)
    ensures v == After(cfg, steps + Tears(xs)) && v == w.(pool := TornAll(w.pool, xs))
  {
    TearsRun(cfg, steps, w, xs);
    v := After(cfg, steps + Tears(xs));
  }

  /** The same of the pool alone: refused, torn down, tried again. */
  lemma GrantedNext(p: State, id: nat, kind: Kind, xs: seq<nat>, tried: State, torn: State, again: State)
    requires Sound(p) && IsEntry(p, id) && 0 < p.arena[id].inUse && !p.closed && OthersAreFree(p, id)
    requires tried == LeaseTried(p, id, kind) && IsEntry(tried, id) && tried.arena[id].leased == p.arena[id].leased
    requires Lists(xs, tried.tearing) && (forall x :: x in xs ==> IsEntry(tried, x)) && torn == TornAll(tried, xs)
    requires Sound(torn) && IsEntry(torn, id) && again == LeaseTried(torn, id, kind)
    ensures IsEntry(again, id)
    ensures again.arena[id].leased == p.arena[id].leased.Add(kind)
       <==> CostOf(p.arena)(id) == 0 || CostOf(p.arena)(id) + 1 <= CapFor(p.cfg, kind)
  {
    LeasedOnlyIfAdmitted(p, id, kind);
    RoomAfterTearing(p, id, kind, xs);
    StillOpen(p, id, kind, xs);
    LeasedOnlyIfAdmitted(torn, id, kind);
  }

  lemma AttemptIs(cfg: Config, steps: seq<Step>, w: World, sid: nat, kind: Kind) returns (v: World)
    requires w == After(cfg, steps) && sid in w.sessions
    ensures Indexed(w.pool) && IsEntry(w.pool, w.sessions[sid].entry)
    ensures v == After(cfg, steps + [TryLease(sid, kind)])
    ensures v == w.(pool := LeaseTried(w.pool, w.sessions[sid].entry, kind))
  {
    AfterOneMore(cfg, steps, TryLease(sid, kind));
    v := After(cfg, steps + [TryLease(sid, kind)]);
  }

  /** A lease is added exactly when the attempt is admitted. */
  lemma LeasedOnlyIfAdmitted(p: State, id: nat, kind: Kind)
    requires Indexed(p) && IsEntry(p, id) && !p.closed && Sound(p)
    ensures IsEntry(LeaseTried(p, id, kind), id)
    ensures LeaseTried(p, id, kind).arena[id].leased == p.arena[id].leased.Add(kind) <==> Admitted(p, id, kind)
    ensures LeaseTried(p, id, kind).arena[id].leased == p.arena[id].leased <==> !Admitted(p, id, kind)
  {
    if !Admitted(p, id, kind) {
      RefusedShrinks(p, id, kind, LeaseTried(p, id, kind));
      assert SameUse(p.arena[id], LeaseTried(p, id, kind).arena[id]);
    }
  }

  lemma HeldInPool(cfg: Config, steps: seq<Step>, w: World, sid: nat)
    requires w == After(cfg, steps) && sid in w.sessions
    ensures Sound(w.pool) && IsEntry(w.pool, w.sessions[sid].entry) && 0 < w.pool.arena[w.sessions[sid].entry].inUse
  {
    RunsAreSound(cfg, steps);
    assert sid in Holders(w, w.sessions[sid].entry);
  }

  lemma StillOpen(p: State, id: nat, kind: Kind, xs: seq<nat>)
    requires Sound(p) && IsEntry(p, id) && 0 < p.arena[id].inUse && !p.closed && OthersAreFree(p, id)
    requires !Admitted(p, id, kind) && Lists(xs, LeaseTried(p, id, kind).tearing)
    ensures forall x :: x in xs ==> IsEntry(LeaseTried(p, id, kind), x)
    ensures var r := TornAll(LeaseTried(p, id, kind), xs);
            !r.closed && IsEntry(r, id) && r.arena[id].leased == p.arena[id].leased
  {
    var q := LeaseTried(p, id, kind);
    RefusedShrinks(p, id, kind, q);
    TornAllAt(q, xs, id);
    OwnStays(p, id, q, xs, TornAll(q, xs));
  }
}
