/** Every run of the pool and its callers: who may hold a FileSystem, and when it is released. */
module PoolSafety {
  import opened Pools

  predicate IsEntry(p: State, id: nat) { id < |p.arena| }

  ghost predicate InEntry(p: State, fs: nat) {
    exists id: nat :: IsEntry(p, id) && p.arena[id].fs == Some(fs)
  }

  predicate Idle(e: Entry) { e.dead && e.inUse == 0 }

  /** The index of keys and the list name each other, and an entry is alive exactly while listed. */
  ghost predicate Linked(p: State) {
    && Indexed(p)
    && (forall id: nat :: IsEntry(p, id) ==> (!p.arena[id].dead <==> id in p.lru))
    && (forall id :: id in p.lru ==> p.arena[id].user in p.entries && p.entries[p.arena[id].user] == id)
    && (forall key :: key in p.entries ==> p.entries[key] in p.lru && p.arena[p.entries[key]].user == key)
  }

  /** An entry has its FileSystem exactly while alive or held, and it stays tracked until torn down. */
  ghost predicate Stocked(p: State) {
    && (forall id: nat :: IsEntry(p, id) ==> 0 <= p.arena[id].inUse)
    && (forall id: nat :: IsEntry(p, id) ==> (p.arena[id].fs.Some? <==> !Idle(p.arena[id])))
    && (forall id: nat :: IsEntry(p, id) && p.arena[id].fs.Some? ==>
         id in p.tracked && p.tracked[id] == p.arena[id].fs.value)
    && (forall id :: id in p.tracked ==> IsEntry(p, id))
    && (forall id: nat :: IsEntry(p, id) ==> (id in p.tearing <==> id in p.tracked && p.arena[id].fs.None?))
    && (forall id :: id in p.tearing ==> IsEntry(p, id))
  }

  /** No two entries have the same FileSystem, and none in an entry has been released. */
  ghost predicate Owned(p: State) {
    && (forall id: nat, other: nat :: IsEntry(p, id) && IsEntry(p, other) && id != other ==>
         p.arena[id].fs == None || p.arena[id].fs != p.arena[other].fs)
    && (forall fs: nat :: InEntry(p, fs) ==> p.releases[fs] == 0)
  }

  ghost predicate Sound(p: State) { Linked(p) && Stocked(p) && Owned(p) }

  ghost function Places(p: State, fs: nat): nat { p.releases[fs] + if InEntry(p, fs) then 1 else 0 }

  predicate SameUse(a: Entry, b: Entry) {
    && a.user == b.user && a.lastUsed == b.lastUsed && a.inUse == b.inUse && a.leased == b.leased && a.open == b.open
    && (b.fs == a.fs || b.fs.None?) && (a.dead ==> b.dead)
  }

  /** What unlinking may change: entries die, and give up FileSystems to be released. */
  ghost predicate Shrinks(p: State, q: State) {
    && |q.arena| == |p.arena| && q.tracked == p.tracked && q.closed == p.closed && q.changed == p.changed
    && q.cfg == p.cfg
    && (forall id: nat :: IsEntry(p, id) ==> SameUse(p.arena[id], q.arena[id]))
    && (forall fs: nat :: Places(q, fs) == Places(p, fs))
    && (forall id :: id in q.lru ==> id in p.lru)
  }

  lemma ShrinksTwice(p: State, q: State, r: State)
    requires Shrinks(p, q) && Shrinks(q, r)
    ensures Shrinks(p, r)
  {
    forall id: nat | IsEntry(p, id) ensures SameUse(p.arena[id], r.arena[id]) {
      assert IsEntry(q, id) && SameUse(p.arena[id], q.arena[id]) && SameUse(q.arena[id], r.arena[id]);
    }
  }

  lemma InOneEntry(p: State, id: nat, fs: nat)
    requires IsEntry(p, id) && p.arena[id].fs == Some(fs)
    ensures InEntry(p, fs)
  {
  }

  /** Letting go of an entry's FileSystem moves it from the entry to the released. */
  lemma ReleaseKeepsPlaces(p: State, id: nat)
    requires IsEntry(p, id) && Owned(p)
    ensures Owned(ReleaseFS(p, id)) && forall fs: nat :: Places(ReleaseFS(p, id), fs) == Places(p, fs)
  {
    var q := ReleaseFS(p, id);
    if p.arena[id].fs.Some? {
      var mine := p.arena[id].fs.value;
      InOneEntry(p, id, mine);
      forall fs: nat ensures InEntry(q, fs) <==> InEntry(p, fs) && fs != mine {
        if InEntry(q, fs) {
          var other: nat :| IsEntry(q, other) && q.arena[other].fs == Some(fs);
          assert p.arena[other].fs == Some(fs);
          InOneEntry(p, other, fs);
        }
        if InEntry(p, fs) && fs != mine {
          var other: nat :| IsEntry(p, other) && p.arena[other].fs == Some(fs);
          InOneEntry(q, other, fs);
        }
      }
    }
  }

  lemma KillKeepsPlaces(p: State, q: State)
    requires Owned(p) && |q.arena| == |p.arena| && q.releases == p.releases
    requires forall id: nat :: IsEntry(p, id) ==> q.arena[id].fs == p.arena[id].fs
    ensures Owned(q) && forall fs: nat :: Places(q, fs) == Places(p, fs)
  {
    forall fs: nat ensures InEntry(q, fs) <==> InEntry(p, fs) {
      if InEntry(q, fs) {
        var id: nat :| IsEntry(q, id) && q.arena[id].fs == Some(fs);
        InOneEntry(p, id, fs);
      }
      if InEntry(p, fs) {
        var id: nat :| IsEntry(p, id) && p.arena[id].fs == Some(fs);
        InOneEntry(q, id, fs);
      }
    }
  }

  /** Everything unlinking does except letting go of the FileSystem. */
  function Detached(p: State, id: nat): State
    requires IsEntry(p, id)
  {
    p.(lru := Without(p.lru, id), entries := p.entries - {p.arena[id].user},
       arena := p.arena[id := p.arena[id].(dead := true)])
  }

  lemma {:induction false} MemberWithout(s: seq<nat>, x: nat, y: nat)
    requires Distinct(s)
    ensures y in Without(s, x) <==> y in s && y != x
  {
    if s != [] {
      assert s == [s[0]] + s[1..];
      if s[0] == x {
        assert forall k :: 0 <= k < |s[1..]| ==> s[1..][k] == s[k + 1] != s[0];
      } else {
        MemberWithout(s[1..], x, y);
      }
    }
  }

  lemma MembersWithout(s: seq<nat>, x: nat)
    requires Distinct(s)
    ensures forall y :: y in Without(s, x) <==> y in s && y != x
  {
    forall y ensures y in Without(s, x) <==> y in s && y != x {
      MemberWithout(s, x, y);
    }
  }

  lemma DetachKeepsLinked(p: State, i: nat)
    requires Linked(p) && i < |p.lru|
    ensures Linked(Detached(p, p.lru[i]))
    ensures forall x :: x in Detached(p, p.lru[i]).lru <==> x in p.lru && x != p.lru[i]
  {
    var id := p.lru[i];
    var q := Detached(p, id);
    WithoutAt(p.lru, i);
    MembersWithout(p.lru, id);
    assert id in p.lru;
    forall k: nat | IsEntry(q, k) ensures !q.arena[k].dead <==> k in q.lru {
      assert IsEntry(p, k);
    }
    forall k | k in q.lru ensures q.arena[k].user in q.entries && q.entries[q.arena[k].user] == k {
      assert k in p.lru && k != id;
    }
  }

  lemma {:induction false} UnlinkKeepsSound(p: State, i: nat)
    requires Sound(p) && i < |p.lru|
    ensures Sound(Unlinked(p, i)) && Shrinks(p, Unlinked(p, i))
    ensures forall x :: x in Unlinked(p, i).lru <==> x in p.lru && x != p.lru[i]
  {
    var id := p.lru[i];
    var q := Detached(p, id);
    DetachKeepsLinked(p, i);
    KillKeepsPlaces(p, q);
    assert id in p.lru && !p.arena[id].dead;
    if p.arena[id].inUse == 0 {
      LinkedDespiteRelease(q, id);
      StockedAfterUnlink(p, q, id);
      ReleaseKeepsPlaces(q, id);
      DetachShrinks(p, id, ReleaseFS(q, id));
    } else {
      StockedStill(p, id);
      DetachShrinks(p, id, q);
    }
  }

  lemma StockedStill(p: State, id: nat)
    requires Stocked(p) && IsEntry(p, id) && p.arena[id].inUse != 0
    ensures Stocked(Detached(p, id))
  {
    var q := Detached(p, id);
    forall k: nat | IsEntry(q, k) ensures q.arena[k].fs.Some? <==> !Idle(q.arena[k]) {
      assert IsEntry(p, k);
    }
  }

  lemma DetachShrinks(p: State, id: nat, r: State)
    requires IsEntry(p, id) && (r == Detached(p, id) || r == ReleaseFS(Detached(p, id), id))
    requires forall fs: nat :: Places(r, fs) == Places(p, fs)
    requires forall x :: x in Detached(p, id).lru ==> x in p.lru
    ensures Shrinks(p, r)
  {
    forall k: nat | IsEntry(p, k) ensures SameUse(p.arena[k], r.arena[k]) {
      assert k != id ==> r.arena[k] == p.arena[k];
    }
  }

  lemma LinkedDespiteRelease(q: State, id: nat)
    requires Linked(q) && IsEntry(q, id)
    ensures Linked(ReleaseFS(q, id))
  {
    var r := ReleaseFS(q, id);
    forall k: nat | IsEntry(r, k) ensures !r.arena[k].dead <==> k in r.lru {
      assert IsEntry(q, k);
    }
  }

  lemma StockedAfterUnlink(p: State, q: State, id: nat)
    requires Stocked(p) && IsEntry(p, id) && p.arena[id].inUse == 0 && !p.arena[id].dead && q == Detached(p, id)
    ensures Stocked(ReleaseFS(q, id))
  {
    var r := ReleaseFS(q, id);
    forall k: nat | IsEntry(r, k) ensures r.arena[k].fs.Some? <==> !Idle(r.arena[k]) {
      assert IsEntry(p, k);
    }
  }

  lemma EvictKeepsSound(p: State, now: int, i: int)
    requires Sound(p) && i < |p.lru|
    ensures Sound(EvictFrom(p, now, i)) && Shrinks(p, EvictFrom(p, now, i))
  {
    EvictLeavesSound(p, now, i, EvictFrom(p, now, i));
  }

  lemma EvictStep(p: State, now: int, i: nat, q: State) returns (next: State)
    requires Indexed(p) && i < |p.lru| && q == EvictFrom(p, now, i)
    ensures next == p || next == Unlinked(p, i)
    ensures i - 1 < |next.lru| && Indexed(next) && q == EvictFrom(next, now, i - 1)
  {
    var id := p.lru[i];
    next := if p.arena[id].inUse == 0 && (|p.lru| > p.cfg.maxSessions || Expired(p, id, now)) then Unlinked(p, i) else p;
  }

  lemma NextIsSound(p: State, i: nat, next: State)
    requires Sound(p) && i < |p.lru| && (next == p || next == Unlinked(p, i))
    ensures Sound(next) && Shrinks(p, next)
  {
    if next != p { UnlinkKeepsSound(p, i); }
  }

  lemma {:induction false} EvictLeavesSound(p: State, now: int, i: int, q: State)
    requires Sound(p) && i < |p.lru| && q == EvictFrom(p, now, i)
    ensures Sound(q) && Shrinks(p, q)
    decreases i + 1
  {
    if 0 <= i {
      var next := EvictStep(p, now, i, q);
      NextIsSound(p, i, next);
      EvictLeavesSound(next, now, i - 1, q);
      ShrinksTwice(p, next, q);
    }
  }

  lemma ReclaimStep(p: State, excess: int, i: nat, next: State, rest: int)
    requires Indexed(p) && i < |p.lru| && 0 < excess && Reclaimable(p, p.lru[i])
    requires next == Unlinked(p, i) && rest == excess - p.arena[p.lru[i]].open.Total()
    ensures Reclaim(p, excess, i) == Reclaim(next, rest, i - 1)
  {
  }

  lemma ShrinksFirst(p: State, i: nat, q: State)
    requires Sound(p) && i < |p.lru| && Shrinks(Unlinked(p, i), q)
    ensures Shrinks(p, q)
  {
    UnlinkKeepsSound(p, i);
    ShrinksTwice(p, Unlinked(p, i), q);
  }

  lemma {:induction false} ReclaimKeepsSound(p: State, excess: int, i: int, q: State)
    requires Sound(p) && i < |p.lru| && q == Reclaim(p, excess, i)
    ensures Sound(q) && Shrinks(p, q)
    decreases i + 1
  {
    if 0 <= i && 0 < excess {
      if Reclaimable(p, p.lru[i]) {
        var next, rest := Unlinked(p, i), excess - p.arena[p.lru[i]].open.Total();
        ReclaimStep(p, excess, i, next, rest);
        UnlinkKeepsSound(p, i);
        ReclaimKeepsSound(next, rest, i - 1, q);
        ShrinksFirst(p, i, q);
      } else {
        ReclaimKeepsSound(p, excess, i - 1, q);
      }
    }
  }

  lemma {:induction false} ClosingKeepsSound(p: State)
    requires Sound(p)
    ensures Sound(UnlinkAll(p)) && Shrinks(p, UnlinkAll(p))
    decreases |p.lru|
  {
    if p.lru != [] {
      UnlinkKeepsSound(p, 0);
      ClosingKeepsSound(Unlinked(p, 0));
      ShrinksTwice(p, Unlinked(p, 0), UnlinkAll(p));
    }
  }

  // ----- The pool with its callers -----

  datatype Session = Session(entry: nat, fs: nat, poisoned: bool, closing: bool)

  datatype Build = Build(key: string, fs: nat)

  /** `built` numbers the FileSystems made so far; `building` are those not yet offered to the pool. */
  datatype World = World(pool: State, sessions: map<nat, Session>, building: map<nat, Build>, built: nat)

  datatype Step =
    | Checkout(sid: nat, key: string, now: int)
    | StartBuild(bid: nat, key: string)
    | Offer(bid: nat, sid: nat, now: int)
    | Poison(sid: nat)
    | BeginClose(sid: nat)
    | EndClose(sid: nat, now: int)
    | TryLease(sid: nat, kind: Kind)
    | EndLease(id: nat, kind: Kind)
    | Dial(id: nat, kind: Kind)
    | HangUp(id: nat, kind: Kind)
    | Torn(id: nat)
    | SweepNow(now: int)
    | ClosePool

  ghost predicate Enabled(w: World, step: Step) {
    match step
    case Checkout(sid, key, _) => sid !in w.sessions && key in w.pool.entries && !w.pool.closed
    case StartBuild(bid, key) => bid !in w.building && key !in w.pool.entries && !w.pool.closed
    case Offer(bid, sid, _) => bid in w.building && sid !in w.sessions
    case Poison(sid) => sid in w.sessions
    case BeginClose(sid) => sid in w.sessions && !w.sessions[sid].closing
    case EndClose(sid, _) => sid in w.sessions && w.sessions[sid].closing
    case TryLease(sid, _) => sid in w.sessions
    case EndLease(id, kind) => IsEntry(w.pool, id) && 0 < w.pool.arena[id].leased.Of(kind)
    case Dial(id, kind) =>
      IsEntry(w.pool, id) && id in w.pool.tracked && w.pool.arena[id].open.Of(kind) < w.pool.arena[id].leased.Of(kind)
    case HangUp(id, kind) => IsEntry(w.pool, id) && 0 < w.pool.arena[id].open.Of(kind)
    case Torn(id) => id in w.pool.tearing
    case SweepNow(_) => true
    case ClosePool => true
  }

  function Reopened(p: State, id: nat, open: Usage): State
    requires IsEntry(p, id)
  {
    p.(arena := p.arena[id := p.arena[id].(open := open)])
  }

  /** Numbers name entries, and listed entries are distinct: what a step needs to make sense. Every world a
      run reaches is in shape. */
  ghost predicate InShape(w: World) {
    && Indexed(w.pool)
    && (forall key :: key in w.pool.entries ==>
         IsEntry(w.pool, w.pool.entries[key]) && w.pool.arena[w.pool.entries[key]].fs.Some?)
    && (forall sid :: sid in w.sessions ==> IsEntry(w.pool, w.sessions[sid].entry))
    && (forall id :: id in w.pool.tearing ==> IsEntry(w.pool, id))
  }

  lemma SoundIsInShape(w: World)
    requires Inv(w)
    ensures InShape(w)
  {
    forall key | key in w.pool.entries
      ensures IsEntry(w.pool, w.pool.entries[key]) && w.pool.arena[w.pool.entries[key]].fs.Some?
    {
      assert w.pool.entries[key] in w.pool.lru && IsEntry(w.pool, w.pool.entries[key]);
    }
  }

  /** What an enabled step does. */
  ghost function Next(w: World, step: Step): World
    requires InShape(w) && Enabled(w, step)
  {
    var p := w.pool;
    match step
    case Checkout(sid, key, now) =>
      var id := p.entries[key];
      w.(pool := TakeEntry(p, key, now), sessions := w.sessions[sid := Session(id, p.arena[id].fs.value, false, false)])
    case StartBuild(bid, key) => w.(building := w.building[bid := Build(key, w.built)], built := w.built + 1)
    case Offer(bid, sid, now) =>
      var key, fs := w.building[bid].key, w.building[bid].fs;
      var w' := w.(building := w.building - {bid});
      if p.closed then w'.(pool := Surplus(p, fs))
      else if key in p.entries then
        var id := p.entries[key];
        w'.(pool := TakeEntry(Surplus(p, fs), key, now),
            sessions := w.sessions[sid := Session(id, p.arena[id].fs.value, false, false)])
      else
        InsertIsIndexed(p, key, fs, now);
        w'.(pool := Evict(Insert(p, key, fs, now), now),
            sessions := w.sessions[sid := Session(|p.arena|, fs, false, false)])
    case Poison(sid) => w.(sessions := w.sessions[sid := w.sessions[sid].(poisoned := true)])
    case BeginClose(sid) => w.(sessions := w.sessions[sid := w.sessions[sid].(closing := true)])
    case EndClose(sid, now) =>
      var s := w.sessions[sid];
      w.(pool := Returned(p, s.entry, s.poisoned, now), sessions := w.sessions - {sid})
    case TryLease(sid, kind) => w.(pool := LeaseTried(p, w.sessions[sid].entry, kind))
    case EndLease(id, kind) => w.(pool := LeaseReturned(p, id, kind))
    case Dial(id, kind) => w.(pool := Reopened(p, id, p.arena[id].open.Add(kind)))
    case HangUp(id, kind) => w.(pool := Reopened(p, id, p.arena[id].open.Less(kind)))
    case Torn(id) => w.(pool := TornDown(p, id))
    case SweepNow(now) => if p.closed then w else w.(pool := Evict(p, now))
    case ClosePool => w.(pool := Shut(p))
  }

  lemma InsertIsIndexed(p: State, key: string, fs: nat, now: int)
    requires Indexed(p)
    ensures Indexed(Insert(p, key, fs, now))
  {
  }

  ghost function Holders(w: World, id: nat): set<nat> {
    set sid | sid in w.sessions && w.sessions[sid].entry == id
  }

  ghost predicate InBuild(w: World, fs: nat) { exists bid :: bid in w.building && w.building[bid].fs == fs }

  /** Sessions and the in-use counts agree, and each session holds its entry's FileSystem. */
  ghost predicate Accounted(w: World) {
    && (forall id: nat :: IsEntry(w.pool, id) ==> w.pool.arena[id].inUse == |Holders(w, id)|)
    && (forall sid :: sid in w.sessions ==>
         IsEntry(w.pool, w.sessions[sid].entry) && w.pool.arena[w.sessions[sid].entry].fs == Some(w.sessions[sid].fs))
  }

  /** Where each FileSystem ever built is: being offered, in an entry, or released once. */
  ghost predicate Placed(w: World) {
    && (forall fs: nat :: Places(w.pool, fs) + (if InBuild(w, fs) then 1 else 0) == if fs < w.built then 1 else 0)
    && (forall a, b :: a in w.building && b in w.building && a != b ==> w.building[a].fs != w.building[b].fs)
  }

  ghost predicate Inv(w: World) {
    && Sound(w.pool) && (w.pool.closed ==> w.pool.lru == []) && Accounted(w) && Placed(w)
  }

  // ----- What each operation keeps -----

  /** Changes of an entry the invariant does not look at. */
  predicate Tweaked(a: Entry, b: Entry) { a.(lastUsed := b.lastUsed, leased := b.leased, open := b.open) == b }

  lemma TweakKeepsSound(p: State, q: State, id: nat)
    requires Sound(p) && IsEntry(p, id) && |q.arena| == |p.arena| && Tweaked(p.arena[id], q.arena[id])
    requires q == p.(arena := p.arena[id := q.arena[id]], changed := q.changed)
    ensures Sound(q) && forall fs: nat :: Places(q, fs) == Places(p, fs)
  {
    KillKeepsPlaces(p, q);
    forall k: nat | IsEntry(q, k)
      ensures (!q.arena[k].dead <==> k in q.lru) && (q.arena[k].fs.Some? <==> !Idle(q.arena[k]))
    {
      assert IsEntry(p, k);
    }
  }

  lemma FrontIsDistinct(s: seq<nat>, x: nat)
    requires Distinct(s) && x !in s
    ensures Distinct([x] + s)
  {
    var t := [x] + s;
    forall i, j | 0 <= i < j < |t| ensures t[i] != t[j] {
      assert t[j] == s[j - 1] && s[j - 1] in s;
    }
  }

  lemma ToFront(s: seq<nat>, x: nat)
    requires Distinct(s) && x in s
    ensures Distinct([x] + Without(s, x)) && forall y :: y in [x] + Without(s, x) <==> y in s
  {
    var i: nat :| i < |s| && s[i] == x;
    MembersWithout(s, x);
    WithoutAt(s, i);
    FrontIsDistinct(Without(s, x), x);
  }

  lemma TakeKeepsLinked(p: State, key: string, now: int)
    requires Linked(p) && key in p.entries
    ensures Linked(TakeEntry(p, key, now))
  {
    var id, q := p.entries[key], TakeEntry(p, key, now);
    ToFront(p.lru, id);
    forall k | 0 <= k < |q.lru| ensures IsEntry(q, q.lru[k]) {
      assert q.lru[k] in q.lru;
      assert q.lru[k] in p.lru;
    }
    assert Indexed(q);
    forall k: nat | IsEntry(q, k) ensures !q.arena[k].dead <==> k in q.lru {
      assert IsEntry(p, k);
    }
  }

  lemma TakeKeepsSound(p: State, key: string, now: int)
    requires Sound(p) && key in p.entries
    ensures Sound(TakeEntry(p, key, now))
    ensures forall fs: nat :: Places(TakeEntry(p, key, now), fs) == Places(p, fs)
  {
    var id, q := p.entries[key], TakeEntry(p, key, now);
    TakeKeepsLinked(p, key, now);
    KillKeepsPlaces(p, q);
    assert id in p.lru && IsEntry(p, id) && !p.arena[id].dead;
    forall k: nat | IsEntry(q, k) ensures q.arena[k].fs.Some? <==> !Idle(q.arena[k]) {
      assert IsEntry(p, k);
    }
  }

  lemma InsertKeepsLinked(p: State, key: string, fs: nat, now: int)
    requires Linked(p) && key !in p.entries
    ensures Linked(Insert(p, key, fs, now))
  {
    var q := Insert(p, key, fs, now);
    forall k: nat | IsEntry(q, k) ensures !q.arena[k].dead <==> k in q.lru {
      if k < |p.arena| { assert IsEntry(p, k); }
    }
  }

  lemma InsertPlaces(p: State, key: string, fs: nat, now: int)
    requires Owned(p) && Places(p, fs) == 0
    ensures Owned(Insert(p, key, fs, now))
    ensures forall f: nat :: Places(Insert(p, key, fs, now), f) == Places(p, f) + if f == fs then 1 else 0
  {
    var q := Insert(p, key, fs, now);
    InOneEntry(q, |p.arena|, fs);
    forall f: nat | f != fs ensures InEntry(q, f) <==> InEntry(p, f) {
      if InEntry(q, f) {
        var id: nat :| IsEntry(q, id) && q.arena[id].fs == Some(f);
        InOneEntry(p, id, f);
      }
      if InEntry(p, f) {
        var id: nat :| IsEntry(p, id) && p.arena[id].fs == Some(f);
        InOneEntry(q, id, f);
      }
    }
    forall id: nat, other: nat | IsEntry(q, id) && IsEntry(q, other) && id != other
      ensures q.arena[id].fs == None || q.arena[id].fs != q.arena[other].fs
    {
      if id < |p.arena| && p.arena[id].fs == Some(fs) { InOneEntry(p, id, fs); }
      if other < |p.arena| && p.arena[other].fs == Some(fs) { InOneEntry(p, other, fs); }
    }
  }

  lemma InsertKeepsStocked(p: State, key: string, fs: nat, now: int)
    requires Stocked(p)
    ensures Stocked(Insert(p, key, fs, now))
  {
    var q := Insert(p, key, fs, now);
    forall k: nat | IsEntry(q, k)
      ensures (q.arena[k].fs.Some? <==> !Idle(q.arena[k])) && 0 <= q.arena[k].inUse
      ensures k in q.tearing <==> k in q.tracked && q.arena[k].fs.None?
    {
      if k < |p.arena| { assert IsEntry(p, k); }
    }
  }

  lemma {:induction false} InsertKeepsSound(p: State, key: string, fs: nat, now: int)
    requires Sound(p) && key !in p.entries && Places(p, fs) == 0
    ensures Sound(Insert(p, key, fs, now))
  {
    InsertKeepsLinked(p, key, fs, now);
    InsertPlaces(p, key, fs, now);
    InsertKeepsStocked(p, key, fs, now);
  }

  lemma FewerKeepsLinked(p: State, id: nat, now: int)
    requires Linked(p) && IsEntry(p, id)
    ensures Linked(OneFewer(p, id, now))
  {
    var q := OneFewer(p, id, now);
    forall k: nat | IsEntry(q, k) ensures !q.arena[k].dead <==> k in q.lru {
      assert IsEntry(p, k);
    }
  }

  lemma FewerKeepsStocked(p: State, id: nat, now: int)
    requires Stocked(p) && IsEntry(p, id) && 0 < p.arena[id].inUse && !(p.arena[id].dead && p.arena[id].inUse == 1)
    ensures Stocked(OneFewer(p, id, now))
  {
    var q := OneFewer(p, id, now);
    forall k: nat | IsEntry(q, k) ensures q.arena[k].fs.Some? <==> !Idle(q.arena[k]) {
      assert IsEntry(p, k);
    }
  }

  /** The entry loses one session and keeps its FileSystem, or gives it up as its last holder leaves. */
  lemma FewerKeepsSound(p: State, id: nat, now: int)
    requires Sound(p) && IsEntry(p, id) && 0 < p.arena[id].inUse
    ensures var q := OneFewer(p, id, now);
            if p.arena[id].dead && p.arena[id].inUse == 1 then Sound(ReleaseFS(q, id)) else Sound(q)
    ensures forall fs: nat :: Places(OneFewer(p, id, now), fs) == Places(p, fs)
    ensures forall fs: nat :: Places(ReleaseFS(OneFewer(p, id, now), id), fs) == Places(p, fs)
  {
    var q := OneFewer(p, id, now);
    KillKeepsPlaces(p, q);
    FewerKeepsLinked(p, id, now);
    ReleaseKeepsPlaces(q, id);
    if p.arena[id].dead && p.arena[id].inUse == 1 {
      LinkedDespiteRelease(q, id);
      StockedAfterLast(p, id, now);
    } else {
      FewerKeepsStocked(p, id, now);
    }
  }

  lemma StockedAfterLast(p: State, id: nat, now: int)
    requires Stocked(p) && IsEntry(p, id) && p.arena[id].dead && p.arena[id].inUse == 1
    ensures Stocked(ReleaseFS(OneFewer(p, id, now), id))
  {
    var r := ReleaseFS(OneFewer(p, id, now), id);
    assert p.arena[id].fs.Some?;
    forall k: nat | IsEntry(r, k) ensures r.arena[k].fs.Some? <==> !Idle(r.arena[k]) {
      assert IsEntry(p, k);
    }
  }

  /** Main result: the two branches that guard a returned session against an entry neither dead nor
      reachable are never taken. */
  lemma GuardsAreNeverNeeded(p: State, id: nat, now: int)
    requires Sound(p) && (p.closed ==> p.lru == []) && IsEntry(p, id) && !p.arena[id].dead
    ensures Reachable(OneFewer(p, id, now), id) && !p.closed
  {
    assert id in p.lru;
  }

  /** How a pool changes under one returned session. */
  ghost predicate HoldsFewer(p: State, q: State, id: nat) {
    && |q.arena| == |p.arena| && IsEntry(p, id) && q.closed == p.closed
    && (forall k: nat :: IsEntry(p, k) ==>
         && q.arena[k].inUse == p.arena[k].inUse - (if k == id then 1 else 0)
         && (q.arena[k].fs == p.arena[k].fs || q.arena[k].fs.None?))
    && (forall fs: nat :: Places(q, fs) == Places(p, fs))
    && (forall x :: x in q.lru ==> x in p.lru)
  }

  lemma AfterShrinking(p: State, q: State, r: State, id: nat)
    requires HoldsFewer(p, q, id) && Shrinks(q, r)
    ensures HoldsFewer(p, r, id)
  {
    forall k: nat | IsEntry(p, k)
      ensures r.arena[k].inUse == p.arena[k].inUse - (if k == id then 1 else 0)
      ensures r.arena[k].fs == p.arena[k].fs || r.arena[k].fs.None?
    {
      assert IsEntry(q, k) && SameUse(q.arena[k], r.arena[k]);
    }
  }

  lemma {:induction false} ReturnKeepsSound(p: State, id: nat, poisoned: bool, now: int)
    requires Sound(p) && (p.closed ==> p.lru == []) && IsEntry(p, id) && 0 < p.arena[id].inUse
    ensures Sound(Returned(p, id, poisoned, now)) && HoldsFewer(p, Returned(p, id, poisoned, now), id)
  {
    var q := OneFewer(p, id, now);
    FewerKeepsSound(p, id, now);
    assert HoldsFewer(p, q, id);
    if p.arena[id].dead {
      assert Returned(p, id, poisoned, now) == if q.arena[id].inUse <= 0 then ReleaseFS(q, id) else q;
    } else {
      GuardsAreNeverNeeded(p, id, now);
      if poisoned {
        ReturnPoisoned(p, id, now, q);
      } else {
        ReturnSpent(p, id, now, q);
      }
    }
  }

  lemma {:induction false} ReturnPoisoned(p: State, id: nat, now: int, q: State)
    requires IsEntry(p, id) && Sound(q) && q == OneFewer(p, id, now) && HoldsFewer(p, q, id) && id in q.lru
    ensures Sound(Unlink(q, id)) && HoldsFewer(p, Unlink(q, id), id)
  {
    var i: nat :| i < |q.lru| && q.lru[i] == id;
    UnlinkKeepsSound(q, i);
    AfterShrinking(p, q, Unlinked(q, i), id);
  }

  lemma ReturnSpent(p: State, id: nat, now: int, q: State)
    requires IsEntry(p, id) && Sound(q) && q == OneFewer(p, id, now) && HoldsFewer(p, q, id)
    ensures Sound(Evict(q, now)) && HoldsFewer(p, Evict(q, now), id)
  {
    EvictKeepsSound(q, now, |q.lru| - 1);
    AfterShrinking(p, q, Evict(q, now), id);
  }
}
