/** The connection pool: what each operation does to it, and the pool itself. */
module Pools {

  datatype Option<T> = None | Some(value: T)

  datatype Kind = Metadata | Transfer

  /** Connections in each of a session's two pools. */
  datatype Usage = Usage(metadata: nat, transfer: nat) {
    function Total(): nat { metadata + transfer }

    function Of(kind: Kind): nat { if kind == Transfer then transfer else metadata }

    function Add(kind: Kind): Usage {
      if kind == Transfer then Usage(metadata, transfer + 1) else Usage(metadata + 1, transfer)
    }

    function Less(kind: Kind): Usage
      requires 0 < Of(kind)
    {
      if kind == Transfer then Usage(metadata, transfer - 1) else Usage(metadata - 1, transfer)
    }
  }

  const NO_CONNECTIONS := Usage(0, 0)

  function Max(a: nat, b: nat): nat { if a < b then b else a }

  function Charge(open: Usage, leased: Usage): nat {
    Max(open.metadata, leased.metadata) + Max(open.transfer, leased.transfer)
  }

  const METADATA_RESERVE: nat := 1
  const MIN_TOTAL_CONNECTIONS: nat := METADATA_RESERVE + 1

  /** One user's FileSystem and its bookkeeping; `open` is what the FileSystem has open right now. */
  datatype Entry = Entry(user: string, fs: Option<nat>, lastUsed: int, inUse: int, leased: Usage, dead: bool,
                         open: Usage)

  datatype Config = Config(maxSessions: int, idleTimeout: int, maxTotal: int, proxyUser: string)

  /** `arena` holds every entry ever made, by number; `lru` has the most recently used first. `changed`
      counts the channels closed so far. `releases` counts the Release calls on each FileSystem and
      `tearing` the entries whose FileSystem's Release has been called and has not returned. */
  datatype State = State(cfg: Config, entries: map<string, nat>, lru: seq<nat>, arena: seq<Entry>,
                         tracked: map<nat, nat>, closed: bool, changed: nat,
                         releases: multiset<nat>, tearing: set<nat>)

  function Empty(cfg: Config): State { State(cfg, map[], [], [], map[], false, 0, multiset{}, {}) }

  ghost predicate Distinct(s: seq<nat>) { forall i, j :: 0 <= i < j < |s| ==> s[i] != s[j] }

  /** The list holds entries, each once. */
  ghost predicate Indexed(p: State) {
    Distinct(p.lru) && forall i :: 0 <= i < |p.lru| ==> p.lru[i] < |p.arena|
  }

  function Without(s: seq<nat>, x: nat): seq<nat> {
    if s == [] then [] else if s[0] == x then s[1..] else [s[0]] + Without(s[1..], x)
  }

  // ----- What the operations do -----

  function ReleaseFS(p: State, id: nat): State
    requires id < |p.arena|
  {
    if p.arena[id].fs.None? then p
    else p.(arena := p.arena[id := p.arena[id].(fs := None)],
            releases := p.releases + multiset{p.arena[id].fs.value},
            tearing := p.tearing + {id})
  }

  function Unlink(p: State, id: nat): (q: State)
    requires id < |p.arena|
    ensures q.lru == Without(p.lru, id) && |q.arena| == |p.arena|
    ensures forall other :: 0 <= other < |p.arena| && other != id ==> q.arena[other] == p.arena[other]
    ensures q.cfg == p.cfg && q.tracked == p.tracked && q.closed == p.closed && q.changed == p.changed
  {
    var e := p.arena[id];
    var q := p.(lru := Without(p.lru, id), entries := p.entries - {e.user}, arena := p.arena[id := e.(dead := true)]);
    if e.inUse == 0 then ReleaseFS(q, id) else q
  }

  predicate Expired(p: State, id: nat, now: int)
    requires id < |p.arena|
  {
    p.arena[id].lastUsed < now - p.cfg.idleTimeout
  }

  /** Eviction from position `i` of the list to its front. */
  function EvictFrom(p: State, now: int, i: int): (q: State)
    requires Indexed(p) && i < |p.lru|
    ensures Indexed(q)
    decreases i + 1
  {
    if i < 0 then p
    else
      var id := p.lru[i];
      var next :=
        if p.arena[id].inUse == 0 && (|p.lru| > p.cfg.maxSessions || Expired(p, id, now)) then Unlinked(p, i) else p;
      EvictFrom(next, now, i - 1)
  }

  function Evict(p: State, now: int): State
    requires Indexed(p)
  {
    EvictFrom(p, now, |p.lru| - 1)
  }

  /** Unlinking by position. */
  function Unlinked(p: State, i: nat): (q: State)
    requires Indexed(p) && i < |p.lru|
    ensures Indexed(q) && q.lru == p.lru[..i] + p.lru[i + 1..] && |q.arena| == |p.arena|
    ensures forall id :: 0 <= id < |p.arena| && id != p.lru[i] ==> q.arena[id] == p.arena[id]
    ensures q.cfg == p.cfg && q.tracked == p.tracked && q.closed == p.closed && q.changed == p.changed
  {
    WithoutAt(p.lru, i);
    WithoutIsIndexed(p, i);
    Unlink(p, p.lru[i])
  }

  lemma WithoutIsIndexed(p: State, i: nat)
    requires Indexed(p) && i < |p.lru|
    ensures forall k :: 0 <= k < |Without(p.lru, p.lru[i])| ==> Without(p.lru, p.lru[i])[k] < |p.arena|
  {
    WithoutAt(p.lru, i);
  }

  /** Free, and holding connections. */
  predicate Reclaimable(p: State, id: nat)
    requires id < |p.arena|
  {
    p.arena[id].inUse == 0 && 0 < p.arena[id].open.Total()
  }

  function Reclaim(p: State, excess: int, i: int): (q: State)
    requires Indexed(p) && i < |p.lru|
    ensures Indexed(q)
    decreases i + 1
  {
    if i < 0 || excess <= 0 then p
    else if Reclaimable(p, p.lru[i]) then Reclaim(Unlinked(p, i), excess - p.arena[p.lru[i]].open.Total(), i - 1)
    else Reclaim(p, excess, i - 1)
  }

  function UnlinkAll(p: State): (q: State)
    requires Indexed(p)
    ensures Indexed(q) && q.lru == []
    decreases |p.lru|
  {
    if p.lru == [] then p else UnlinkAll(Unlinked(p, 0))
  }

  lemma FirstUnlinked(p: State)
    requires Indexed(p) && p.lru != []
    ensures var q := Unlink(p, p.lru[0]);
            Indexed(q) && UnlinkAll(q) == UnlinkAll(p) && |q.lru| < |p.lru|
  {
    assert Unlinked(p, 0) == Unlink(p, p.lru[0]);
  }

  function Signal(p: State): State { p.(changed := p.changed + 1) }

  function Shut(p: State): State
    requires Indexed(p)
  {
    if p.closed then p else UnlinkAll(Signal(p.(closed := true)))
  }

  /** An entry already in the pool is taken by one more session. */
  function TakeEntry(p: State, key: string, now: int): State
    requires key in p.entries && p.entries[key] < |p.arena|
  {
    var id := p.entries[key];
    var e := p.arena[id];
    p.(arena := p.arena[id := e.(lastUsed := now, inUse := e.inUse + 1)], lru := [id] + Without(p.lru, id))
  }

  function Insert(p: State, key: string, fs: nat, now: int): State {
    var id := |p.arena|;
    p.(arena := p.arena + [Entry(key, Some(fs), now, 1, NO_CONNECTIONS, false, NO_CONNECTIONS)],
       entries := p.entries[key := id], lru := [id] + p.lru, tracked := p.tracked[id := fs])
  }

  function Killed(p: State, id: nat): State
    requires id < |p.arena|
  {
    p.(arena := p.arena[id := p.arena[id].(dead := true)])
  }

  function OneFewer(p: State, id: nat, now: int): State
    requires id < |p.arena|
  {
    p.(arena := p.arena[id := p.arena[id].(inUse := p.arena[id].inUse - 1, lastUsed := now)])
  }

  predicate Reachable(p: State, id: nat)
    requires id < |p.arena|
  {
    p.arena[id].user in p.entries && p.entries[p.arena[id].user] == id
  }

  /** A session comes back. The branches follow the code, with the two that guard against an entry being
      neither dead nor reachable. */
  function Returned(p: State, id: nat, poisoned: bool, now: int): State
    requires Indexed(p) && id < |p.arena|
  {
    var q := OneFewer(p, id, now);
    if poisoned && !q.arena[id].dead && Reachable(q, id) then Unlink(q, id)
    else Settled(if poisoned && !q.arena[id].dead then Killed(q, id) else q, id, now)
  }

  function Settled(q: State, id: nat, now: int): State
    requires Indexed(q) && id < |q.arena|
  {
    if q.arena[id].dead then (if q.arena[id].inUse <= 0 then ReleaseFS(q, id) else q)
    else if q.closed then (if q.arena[id].inUse <= 0 then ReleaseFS(Killed(q, id), id) else q)
    else Evict(q, now)
  }

  /** What the entries below `n` that are still tracked are charged. */
  function TrackedCharge(p: State, n: nat): nat
    requires n <= |p.arena|
  {
    if n == 0 then 0
    else TrackedCharge(p, n - 1) + if n - 1 in p.tracked then Charge(p.arena[n - 1].open, p.arena[n - 1].leased) else 0
  }

  function Charged(p: State, id: nat): nat
    requires id < |p.arena|
  {
    TrackedCharge(p, |p.arena|) + if id in p.tracked then 0 else p.arena[id].leased.Total()
  }

  function Limit(p: State, kind: Kind): int {
    if kind == Transfer then p.cfg.maxTotal - METADATA_RESERVE else p.cfg.maxTotal
  }

  function Need(p: State, id: nat, kind: Kind): int
    requires id < |p.arena|
  {
    var e := p.arena[id];
    Charge(e.open, e.leased.Add(kind)) - Charge(e.open, e.leased)
  }

  predicate Admitted(p: State, id: nat, kind: Kind)
    requires id < |p.arena|
  {
    Need(p, id, kind) == 0 || Charged(p, id) + Need(p, id, kind) <= Limit(p, kind) || Charged(p, id) == 0
  }

  function WithLease(p: State, id: nat, kind: Kind): State
    requires id < |p.arena|
  {
    p.(arena := p.arena[id := p.arena[id].(leased := p.arena[id].leased.Add(kind))])
  }

  /** One attempt at a lease: it is granted, or idle sessions are evicted towards it. */
  function LeaseTried(p: State, id: nat, kind: Kind): State
    requires Indexed(p) && id < |p.arena|
  {
    if p.closed then p
    else if Admitted(p, id, kind) then WithLease(p, id, kind)
    else Reclaim(p, Charged(p, id) + Need(p, id, kind) - Limit(p, kind), |p.lru| - 1)
  }

  function LeaseReturned(p: State, id: nat, kind: Kind): State
    requires id < |p.arena| && 0 < p.arena[id].leased.Of(kind)
  {
    Signal(p.(arena := p.arena[id := p.arena[id].(leased := p.arena[id].leased.Less(kind))]))
  }

  function TornDown(p: State, id: nat): State
    requires id < |p.arena|
  {
    Signal(p.(tracked := p.tracked - {id}, tearing := p.tearing - {id},
              arena := p.arena[id := p.arena[id].(open := NO_CONNECTIONS)]))
  }

  lemma {:induction false} WithoutAt(s: seq<nat>, i: nat)
    requires Distinct(s) && i < |s|
    ensures Without(s, s[i]) == s[..i] + s[i + 1..] && Distinct(Without(s, s[i]))
    ensures forall k :: 0 <= k < |s| - 1 ==> Without(s, s[i])[k] == s[if k < i then k else k + 1]
  {
    if 0 < i {
      var t := s[1..];
      assert t[i - 1] == s[i];
      WithoutAt(t, i - 1);
      assert t[..i - 1] == s[1..i] && t[i..] == s[i + 1..];
      assert [s[0]] + s[1..i] == s[..i];
    }
    CutIsDistinct(s, i);
  }

  lemma CutIsDistinct(s: seq<nat>, i: nat)
    requires Distinct(s) && i < |s|
    ensures Distinct(s[..i] + s[i + 1..])
  {
    var t := s[..i] + s[i + 1..];
    forall k | 0 <= k < |t| ensures t[k] == s[if k < i then k else k + 1] { }
  }

  // ----- The pool -----

  datatype Found = Taken(entry: nat, fs: nat) | Missing | PoolClosed | NoUser

  /** What a look under a key finds. */
  function Looked(p: State, key: string): Found
    requires forall k :: k in p.entries ==> p.entries[k] < |p.arena| && p.arena[p.entries[k]].fs.Some?
  {
    if p.closed then PoolClosed
    else if key !in p.entries then Missing
    else Taken(p.entries[key], p.arena[p.entries[key]].fs.value)
  }

  /** No username is empty, so this key is nobody else's. */
  const ADMIN_KEY := ""

  /** The key a user's session is pooled under, or nothing for no user. */
  function KeyOf(cfg: Config, user: string): (key: Option<string>)
    ensures key.None? <==> user == ""
    ensures key.Some? ==> (key.value == ADMIN_KEY <==> user == cfg.proxyUser)
  {
    if user == "" then None else if user == cfg.proxyUser then Some(ADMIN_KEY) else Some(user)
  }

  /** No two users share a session, and the proxy account alone shares the admin one. */
  lemma KeysAreApart(cfg: Config, a: string, b: string)
    requires a != "" && b != ""
    ensures KeyOf(cfg, a) == KeyOf(cfg, b) <==> a == b
    ensures KeyOf(cfg, a) == Some(ADMIN_KEY) <==> a == cfg.proxyUser
  {
  }

  datatype Attempt = Granted | Wait | Refused

  class Pool {
    const cfg: Config
    var entries: map<string, nat>
    var lru: seq<nat>
    var arena: seq<Entry>
    var tracked: map<nat, nat>
    var closed: bool
    var changed: nat
    ghost var releases: multiset<nat>
    ghost var tearing: set<nat>

    ghost function View(): State
      reads this
    {
      State(cfg, entries, lru, arena, tracked, closed, changed, releases, tearing)
    }

    constructor (cfg: Config)
      ensures View() == Empty(cfg)
    {
      this.cfg := cfg;
      entries, lru, arena, tracked, closed, changed := map[], [], [], map[], false, 0;
      releases, tearing := multiset{}, {};
    }

    /** A session acting as the proxy account itself. */
    method Admin(now: int) returns (found: Found)
      requires forall k :: k in entries ==> entries[k] < |arena| && arena[entries[k]].fs.Some?
      modifies this
      ensures found == Looked(old(View()), ADMIN_KEY)
      ensures View() == if found.Taken? then TakeEntry(old(View()), ADMIN_KEY, now) else old(View())
    {
      found := Find(ADMIN_KEY, now);
    }

    /** A session acting as a user. Acting as the proxy account is having the admin session. */
    method ForUser(user: string, now: int) returns (found: Found)
      requires forall k :: k in entries ==> entries[k] < |arena| && arena[entries[k]].fs.Some?
      modifies this
      ensures found.NoUser? <==> user == ""
      ensures user != "" ==> found == Looked(old(View()), KeyOf(cfg, user).value)
      ensures View() == if found.Taken? then TakeEntry(old(View()), KeyOf(cfg, user).value, now) else old(View())
    {
      if user == "" {
        return NoUser;
      }
      if user == cfg.proxyUser {
        found := Find(ADMIN_KEY, now);
      } else {
        found := Find(user, now);
      }
    }

    /** The first look for a session, under the lock. */
    method Find(key: string, now: int) returns (found: Found)
      requires forall k :: k in entries ==> entries[k] < |arena| && arena[entries[k]].fs.Some?
      modifies this
      ensures found == Looked(old(View()), key)
      ensures found.PoolClosed? <==> old(closed)
      ensures found.Missing? <==> !old(closed) && key !in old(entries)
      ensures found.Taken? ==> found.entry == old(entries)[key] && Some(found.fs) == old(arena)[found.entry].fs
      ensures View() == if found.Taken? then TakeEntry(old(View()), key, now) else old(View())
    {
      if closed {
        return PoolClosed;
      }
      if key !in entries {
        return Missing;
      }
      var id := entries[key];
      arena := arena[id := arena[id].(lastUsed := now, inUse := arena[id].inUse + 1)];
      MoveToFront(id);
      return Taken(id, arena[id].fs.value);
    }

    /** The second look, with a FileSystem built meanwhile: installed, or surplus and released. */
    method Install(key: string, fs: nat, now: int) returns (found: Found)
      requires Indexed(View())
      requires forall k :: k in entries ==> entries[k] < |arena| && arena[entries[k]].fs.Some?
      modifies this
      ensures found.PoolClosed? <==> old(closed)
      ensures !found.Missing? && !found.NoUser?
      ensures found.Taken? && key in old(entries) ==>
                found.entry == old(entries)[key] && old(arena)[found.entry].fs == Some(found.fs)
      ensures found.Taken? && key !in old(entries) ==> found.entry == |old(arena)| && found.fs == fs
      ensures View() == if old(closed) then Surplus(old(View()), fs)
                        else if key in old(entries) then TakeEntry(Surplus(old(View()), fs), key, now)
                        else Evict(Insert(old(View()), key, fs, now), now)
    {
      if closed {
        releases := releases + multiset{fs};
        return PoolClosed;
      }
      if key in entries {
        releases := releases + multiset{fs};
        var id := entries[key];
        arena := arena[id := arena[id].(lastUsed := now, inUse := arena[id].inUse + 1)];
        MoveToFront(id);
        return Taken(id, arena[id].fs.value);
      }
      var id := |arena|;
      arena := arena + [Entry(key, Some(fs), now, 1, NO_CONNECTIONS, false, NO_CONNECTIONS)];
      entries := entries[key := id];
      lru := [id] + lru;
      tracked := tracked[id := fs];
      assert View() == Insert(old(View()), key, fs, now);
      EvictLocked(now);
      return Taken(id, fs);
    }

    method MoveToFront(id: nat)
      modifies this`lru
      ensures lru == [id] + Without(old(lru), id)
    {
      lru := [id] + Without(lru, id);
    }

    method ReleaseFSLocked(id: nat)
      requires id < |arena|
      modifies this
      ensures View() == ReleaseFS(old(View()), id)
    {
      if arena[id].fs.None? {
        return;
      }
      releases := releases + multiset{arena[id].fs.value};
      tearing := tearing + {id};
      arena := arena[id := arena[id].(fs := None)];
    }

    method UnlinkLocked(id: nat)
      requires id < |arena|
      modifies this
      ensures View() == Unlink(old(View()), id)
    {
      lru := Without(lru, id);
      entries := entries - {arena[id].user};
      arena := arena[id := arena[id].(dead := true)];
      if arena[id].inUse == 0 {
        ReleaseFSLocked(id);
      }
    }

    method EvictLocked(now: int)
      requires Indexed(View())
      modifies this
      ensures View() == Evict(old(View()), now)
    {
      var i := |lru| - 1;
      while 0 <= i
        invariant i < |lru| && Indexed(View())
        invariant EvictFrom(View(), now, i) == Evict(old(View()), now)
      {
        var id := lru[i];
        if arena[id].inUse == 0 && (|lru| > cfg.maxSessions || arena[id].lastUsed < now - cfg.idleTimeout) {
          ghost var before := View();
          UnlinkLocked(id);
          assert View() == Unlinked(before, i);
        }
        i := i - 1;
      }
    }

    method ReclaimLocked(excess: int)
      requires Indexed(View())
      modifies this
      ensures View() == Reclaim(old(View()), excess, |old(lru)| - 1)
    {
      var i, left := |lru| - 1, excess;
      while 0 <= i && 0 < left
        invariant i < |lru| && Indexed(View())
        invariant Reclaim(View(), left, i) == Reclaim(old(View()), excess, |old(lru)| - 1)
      {
        var id := lru[i];
        if arena[id].inUse == 0 && 0 < arena[id].open.Total() {
          left := left - arena[id].open.Total();
          ghost var before := View();
          UnlinkLocked(id);
          assert View() == Unlinked(before, i);
        }
        i := i - 1;
      }
    }

    method Release(id: nat, poisoned: bool, now: int)
      requires Indexed(View()) && id < |arena|
      modifies this
      ensures View() == Returned(old(View()), id, poisoned, now)
    {
      arena := arena[id := arena[id].(inUse := arena[id].inUse - 1, lastUsed := now)];
      assert View() == OneFewer(old(View()), id, now);
      if poisoned && !arena[id].dead {
        if arena[id].user in entries && entries[arena[id].user] == id {
          UnlinkLocked(id);
          return;
        }
        arena := arena[id := arena[id].(dead := true)];
      }
      if arena[id].dead {
        if arena[id].inUse <= 0 {
          ReleaseFSLocked(id);
        }
        return;
      }
      if closed {
        if arena[id].inUse <= 0 {
          arena := arena[id := arena[id].(dead := true)];
          ReleaseFSLocked(id);
        }
        return;
      }
      EvictLocked(now);
    }

    method Sweep(now: int)
      requires Indexed(View())
      modifies this
      ensures View() == if old(closed) then old(View()) else Evict(old(View()), now)
    {
      if !closed {
        EvictLocked(now);
      }
    }

    method Close()
      requires Indexed(View())
      modifies this
      ensures View() == Shut(old(View()))
    {
      if closed {
        return;
      }
      closed := true;
      changed := changed + 1;
      ghost var start := View();
      while lru != []
        invariant Indexed(View())
        invariant UnlinkAll(View()) == UnlinkAll(start)
        decreases |lru|
      {
        ghost var before := View();
        FirstUnlinked(before);
        UnlinkLocked(lru[0]);
      }
    }

    method ChargedConnections(id: nat) returns (total: nat)
      requires id < |arena|
      ensures total == Charged(View(), id)
    {
      total := 0;
      for n := 0 to |arena|
        invariant total == TrackedCharge(View(), n)
      {
        if n in tracked {
          total := total + Charge(arena[n].open, arena[n].leased);
        }
      }
      if id !in tracked {
        total := total + arena[id].leased.Total();
      }
    }

    /** One attempt at a lease, counting and admitting in one step. */
    method Lease(id: nat, kind: Kind) returns (attempt: Attempt)
      requires Indexed(View()) && id < |arena|
      modifies this
      ensures attempt.Refused? <==> old(closed)
      ensures attempt.Granted? <==> !old(closed) && Admitted(old(View()), id, kind)
      ensures View() == LeaseTried(old(View()), id, kind)
    {
      if closed {
        return Refused;
      }
      var limit := cfg.maxTotal;
      if kind == Transfer {
        limit := limit - METADATA_RESERVE;
      }
      var charged := ChargedConnections(id);
      var e := arena[id];
      var need := Charge(e.open, e.leased.Add(kind)) - Charge(e.open, e.leased);
      if need == 0 || charged + need <= limit || charged == 0 {
        arena := arena[id := e.(leased := e.leased.Add(kind))];
        return Granted;
      }
      ReclaimLocked(charged + need - limit);
      return Wait;
    }

    method ReturnLease(id: nat, kind: Kind)
      requires id < |arena| && 0 < arena[id].leased.Of(kind)
      modifies this
      ensures View() == LeaseReturned(old(View()), id, kind)
    {
      arena := arena[id := arena[id].(leased := arena[id].leased.Less(kind))];
      changed := changed + 1;
    }

    /** A Release call has come back: its connections are gone. */
    method FinishTeardown(id: nat)
      requires id < |arena|
      modifies this
      ensures View() == TornDown(old(View()), id)
    {
      tracked := tracked - {id};
      tearing := tearing - {id};
      arena := arena[id := arena[id].(open := NO_CONNECTIONS)];
      changed := changed + 1;
    }
  }

  /** A FileSystem that was never installed is released at once. */
  function Surplus(p: State, fs: nat): State { p.(releases := p.releases + multiset{fs}) }
}
