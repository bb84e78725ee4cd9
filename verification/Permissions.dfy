/** Repairing access lists after a move, and why the result is navigable. */
module Permissions {
  import opened Paths
  import opened Access
  import opened Stores
  import opened Moves

  datatype MoveContext = MoveContext(
    source: Path, destination: Path, user: User, admins: set<User>, proxy: User, layout: Layout)
  {
    /** Accounts whose access is structural rather than shared. */
    function Structural(): set<User> { admins + {user, proxy} }

    predicate Ignores(u: User) { u == user || u == proxy || u in admins }

    function CleanupStops(): set<Path> { layout.WalkRoots() + {layout.UserHome(user)} }
  }

  // ----- What each repair does to the access lists -----

  /** `users` lose every entry at and below `p`. */
  function Revoke(acls: Acls, p: Path, users: set<User>): Acls {
    map q | q in acls :: if p <= q then acls[q] - users else acls[q]
  }

  function Overlaid(acl: Acl, granted: Acl): Acl {
    map u | u in acl.Keys + granted.Keys && (u in granted ==> granted[u] != None) ::
      if u in granted then granted[u] else acl[u]
  }

  /** Everything at and below `p` takes the levels of `granted`. */
  function Grant(acls: Acls, p: Path, granted: Acl): Acls {
    map q | q in acls :: if p <= q then Overlaid(acls[q], granted) else acls[q]
  }

  function AtLeastRead(acl: Acl, users: set<User>): Acl {
    map u | u in acl.Keys + users ::
      if u in users && !(u in acl && acl[u] in {Write, Own}) then Read else acl[u]
  }

  /** `users` may read each of `places`, keeping write and own where they hold them. */
  function Reach(acls: Acls, users: set<User>, places: seq<Path>): Acls {
    map q | q in acls :: if q in places then AtLeastRead(acls[q], users) else acls[q]
  }

  /** The collections of `chain` whose read `u` loses when nothing in them is left to see. `gone`
      are the ones below that were taken already. */
  ghost function Obsolete(acls: Acls, chain: seq<Path>, u: User, gone: set<Path>): set<Path> {
    if chain == [] then {}
    else if Held(acls, chain[0], u) != Read then Obsolete(acls, chain[1..], u, gone)
    else if HoldsReadable(acls, chain[0], u, gone) then {}
    else {chain[0]} + Obsolete(acls, chain[1..], u, gone + {chain[0]})
  }

  function Forget(acls: Acls, u: User, places: set<Path>): Acls {
    map q | q in acls :: if q in places then acls[q] - {u} else acls[q]
  }

  ghost function ForgetObsolete(acls: Acls, chain: seq<Path>, users: set<User>): Acls {
    map q | q in acls ::
      map u | u in acls[q] && !(u in users && q in Obsolete(acls, chain, u, {})) :: acls[q][u]
  }

  // ----- The repair, step by step -----

  function Members(users: seq<User>): set<User> { set u | u in users }

  method ShareesOf(store: Store, p: Path, move: MoveContext) returns (out: seq<User>)
    ensures Members(out) == store.ListOf(p).Keys - (move.admins + {move.user, move.proxy})
  {
    var entries := store.ACL(p);
    out := [];
    for i := 0 to |entries|
      invariant Members(out) == UsersOf(entries[..i]) - move.Structural()
    {
      UsersOfOneMore(entries, i);
      if !move.Ignores(entries[i].user) {
        assert Members(out + [entries[i].user]) == Members(out) + {entries[i].user};
        out := out + [entries[i].user];
      }
    }
    assert entries[..|entries|] == entries;
    assert UsersOf(entries) == store.ListOf(p).Keys;
  }

  lemma UsersOfOneMore(entries: seq<AclEntry>, i: nat)
    requires i < |entries|
    ensures UsersOf(entries[..i + 1]) == UsersOf(entries[..i]) + {entries[i].user}
  {
    var more, fewer := entries[..i + 1], entries[..i];
    forall u | u in UsersOf(more) ensures u in UsersOf(fewer) + {entries[i].user} {
      var j :| 0 <= j < |more| && more[j].user == u;
      if j < i { assert fewer[j].user == u; }
    }
    forall u | u in UsersOf(fewer) + {entries[i].user} ensures u in UsersOf(more) {
      if u == entries[i].user {
        assert more[i].user == u;
      } else {
        var j :| 0 <= j < |fewer| && fewer[j].user == u;
        assert more[j].user == u;
      }
    }
  }

  lemma MembersOneMore(users: seq<User>, i: nat)
    requires i < |users|
    ensures Members(users[..i + 1]) == Members(users[..i]) + {users[i]}
  {
    assert users[..i + 1] == users[..i] + [users[i]];
  }

  /** Everyone else loses their access to the moved thing. */
  method ClearAccess(store: Store, move: MoveContext) returns (ok: bool)
    modifies store`acls
    ensures store.acls.Keys == old(store.acls.Keys)
    ensures move.destination in old(store.acls) ==> ok
    ensures ok ==>
      store.acls == Revoke(old(store.acls), move.destination,
                           old(store.ListOf(move.destination)).Keys - move.Structural())
  {
    var sharees := ShareesOf(store, move.destination, move);
    ghost var before := store.acls;
    RevokeNobody(before, move.destination);
    assert Members(sharees[..0]) == {};
    for i := 0 to |sharees|
      invariant store.acls == Revoke(before, move.destination, Members(sharees[..i]))
    {
      ghost var now := store.acls;
      ok := store.SetPermission(move.destination, sharees[i], None, true);
      if !ok {
        return;
      }
      assert store.acls == Revoke(now, move.destination, {sharees[i]});
      MembersOneMore(sharees, i);
      RevokeMore(before, move.destination, Members(sharees[..i]), {sharees[i]});
    }
    assert sharees[..|sharees|] == sharees;
    return true;
  }

  lemma RevokeNobody(acls: Acls, p: Path)
    ensures Revoke(acls, p, {}) == acls
  {
    SameAcls(Revoke(acls, p, {}), acls);
  }

  lemma RevokeMore(acls: Acls, p: Path, done: set<User>, more: set<User>)
    ensures Revoke(Revoke(acls, p, done), p, more) == Revoke(acls, p, done + more)
  {
    SameAcls(Revoke(Revoke(acls, p, done), p, more), Revoke(acls, p, done + more));
  }

  function Among(acl: Acl, users: set<User>): Acl { map u | u in acl && u in users :: acl[u] }

  /** The moved thing takes the destination collection's list. */
  method GrantParentAccess(store: Store, move: MoveContext) returns (ok: bool)
    modifies store`acls
    ensures store.acls.Keys == old(store.acls.Keys)
    ensures move.destination in old(store.acls) ==> ok
    ensures ok ==>
      store.acls == Grant(old(store.acls), move.destination,
                          old(store.ListOf(Dir(move.destination))) - move.Structural())
  {
    var entries := store.ACL(Dir(move.destination));
    ghost var before, acl := store.acls, store.ListOf(Dir(move.destination));
    ghost var granted := acl - move.Structural();
    GrantNothing(before, move.destination);
    ghost var given: Acl := map[];
    assert given == Among(granted, UsersOf(entries[..0]));
    for i := 0 to |entries|
      invariant given == Among(granted, UsersOf(entries[..i]))
      invariant store.acls == Grant(before, move.destination, given)
    {
      AmongOneMore(entries, acl, move.Structural(), i);
      if move.Ignores(entries[i].user) {
        continue;
      }
      ok := store.SetPermission(move.destination, entries[i].user, entries[i].level, true);
      if !ok {
        return;
      }
      GrantMore(before, move.destination, given, entries[i].user, entries[i].level);
      given := given[entries[i].user := entries[i].level];
    }
    assert given == granted by {
      assert entries[..|entries|] == entries;
      AmongAll(entries, acl, move.Structural());
    }
    return true;
  }

  lemma {:induction false} AmongOneMore(entries: seq<AclEntry>, acl: Acl, structural: set<User>, i: nat)
    requires Lists(entries, acl) && i < |entries|
    ensures Among(acl - structural, UsersOf(entries[..i + 1]))
         == (var some := Among(acl - structural, UsersOf(entries[..i]));
             if entries[i].user in structural then some else some[entries[i].user := entries[i].level])
  {
    UsersOfOneMore(entries, i);
  }

  lemma AmongAll(entries: seq<AclEntry>, acl: Acl, structural: set<User>)
    requires Lists(entries, acl)
    ensures Among(acl - structural, UsersOf(entries)) == acl - structural
  {
    assert UsersOf(entries) == acl.Keys;
  }

  lemma GrantNothing(acls: Acls, p: Path)
    ensures Grant(acls, p, map[]) == acls
  {
    SameAcls(Grant(acls, p, map[]), acls);
  }

  lemma OverlaidMore(acl: Acl, granted: Acl, u: User, level: Level)
    ensures Put(Overlaid(acl, granted), u, level) == Overlaid(acl, granted[u := level])
  {
  }

  lemma GrantMore(acls: Acls, p: Path, granted: Acl, u: User, level: Level)
    ensures SetPerm(Grant(acls, p, granted), p, u, level, true) == Grant(acls, p, granted[u := level])
  {
    var a, b := SetPerm(Grant(acls, p, granted), p, u, level, true), Grant(acls, p, granted[u := level]);
    assert a.Keys == b.Keys;
    forall q | q in a ensures a[q] == b[q] {
      if p <= q { OverlaidMore(acls[q], granted, u, level); }
    }
  }

  /** Each sharee may at least read every collection above the moved thing. */
  method GrantAncestorAccess(store: Store, move: MoveContext) returns (ok: bool)
    modifies store`acls
    ensures store.acls.Keys == old(store.acls.Keys)
    ensures ok <== forall a :: a in Ancestors(move.destination, move.layout.WalkRoots()) ==> a in old(store.acls)
    ensures ok ==>
      store.acls == Reach(old(store.acls), old(store.ListOf(move.destination)).Keys - move.Structural(),
                          Ancestors(move.destination, move.layout.WalkRoots()))
  {
    var sharees := ShareesOf(store, move.destination, move);
    var ancestors := AncestorsOf(move.destination, move.layout.WalkRoots());
    ghost var before := store.acls;
    ReachNobody(before, {}, ancestors);
    assert Members(sharees[..0]) == {};
    for i := 0 to |sharees|
      invariant store.acls == Reach(before, Members(sharees[..i]), ancestors)
    {
      ghost var outer := store.acls;
      ReachNobody(outer, {sharees[i]}, []);
      for j := 0 to |ancestors|
        invariant store.acls == Reach(outer, {sharees[i]}, ancestors[..j])
      {
        ghost var now := store.acls;
        var held := store.PermissionOf(ancestors[j], sharees[i]);
        if held != Write && held != Own {
          ok := store.SetPermission(ancestors[j], sharees[i], Read, false);
          if !ok {
            return;
          }
        }
        assert ancestors[..j + 1] == ancestors[..j] + [ancestors[j]];
        ReachOne(now, sharees[i], ancestors[j]);
        ReachFarther(outer, sharees[i], ancestors[..j], ancestors[j]);
      }
      assert ancestors[..|ancestors|] == ancestors;
      MembersOneMore(sharees, i);
      ReachMore(before, Members(sharees[..i]), sharees[i], ancestors);
    }
    assert sharees[..|sharees|] == sharees;
    return true;
  }

  lemma ReachNobody(acls: Acls, users: set<User>, places: seq<Path>)
    requires users == {} || places == []
    ensures Reach(acls, users, places) == acls
  {
    SameAcls(Reach(acls, users, places), acls);
  }

  lemma ReachOne(acls: Acls, u: User, p: Path)
    ensures Held(acls, p, u) in {Write, Own} ==> Reach(acls, {u}, [p]) == acls
    ensures Held(acls, p, u) !in {Write, Own} ==> Reach(acls, {u}, [p]) == SetPerm(acls, p, u, Read, false)
  {
    if Held(acls, p, u) in {Write, Own} {
      SameAcls(Reach(acls, {u}, [p]), acls);
    } else {
      SameAcls(Reach(acls, {u}, [p]), SetPerm(acls, p, u, Read, false));
    }
  }

  lemma ReachFarther(acls: Acls, u: User, places: seq<Path>, p: Path)
    ensures Reach(Reach(acls, {u}, places), {u}, [p]) == Reach(acls, {u}, places + [p])
  {
    SameAcls(Reach(Reach(acls, {u}, places), {u}, [p]), Reach(acls, {u}, places + [p]));
  }

  lemma ReachMore(acls: Acls, users: set<User>, u: User, places: seq<Path>)
    ensures Reach(Reach(acls, users, places), {u}, places) == Reach(acls, users + {u}, places)
  {
    SameAcls(Reach(Reach(acls, users, places), {u}, places), Reach(acls, users + {u}, places));
  }

  // ----- Taking back read that no longer leads anywhere -----

  ghost predicate Distinct(chain: seq<Path>) {
    forall i, j :: 0 <= i < j < |chain| ==> chain[i] != chain[j]
  }

  /** Walks `chain` upwards, taking back read that leads nowhere, until something in a collection is
      still visible to `u`. Write and own are left alone and do not stop the walk. */
  method WithdrawRead(store: Store, chain: seq<Path>, u: User)
    requires Distinct(chain)
    modifies store`acls
    ensures store.acls == Forget(old(store.acls), u, Obsolete(old(store.acls), chain, u, {}))
  {
    ghost var before := store.acls;
    ghost var gone: set<Path> := {};
    assert chain[0..] == chain;
    ForgetNowhere(before, u);
    for j := 0 to |chain|
      invariant store.acls == Forget(before, u, gone)
      invariant forall g :: g in gone ==> g in chain[..j]
      invariant Obsolete(before, chain, u, {}) == gone + Obsolete(before, chain[j..], u, gone)
    {
      ChainStep(chain, j);
      var held := store.PermissionOf(chain[j], u);
      if held != Read {
        continue;
      }
      var reachable := store.HoldsAnythingReadableBy(chain[j], u);
      ReadableAfterForget(before, u, gone, chain[j]);
      if reachable {
        assert Obsolete(before, chain[j..], u, gone) == {};
        return;
      }
      var _ := store.SetPermission(chain[j], u, None, false);
      ForgetFarther(before, u, gone, chain[j]);
      gone := gone + {chain[j]};
    }
  }

  lemma ChainStep(chain: seq<Path>, j: nat)
    requires Distinct(chain) && j < |chain|
    ensures chain[j..] != [] && chain[j..][0] == chain[j] && chain[j..][1..] == chain[j + 1..]
    ensures chain[j] !in chain[..j] && forall g :: g in chain[..j + 1] <==> g in chain[..j] || g == chain[j]
  {
    assert chain[..j + 1] == chain[..j] + [chain[j]];
  }

  lemma ForgetNowhere(acls: Acls, u: User)
    ensures Forget(acls, u, {}) == acls
  {
    SameAcls(Forget(acls, u, {}), acls);
  }

  lemma ForgetFarther(acls: Acls, u: User, gone: set<Path>, p: Path)
    ensures SetPerm(Forget(acls, u, gone), p, u, None, false) == Forget(acls, u, gone + {p})
  {
    SameAcls(SetPerm(Forget(acls, u, gone), p, u, None, false), Forget(acls, u, gone + {p}));
  }

  lemma ReadableAfterForget(acls: Acls, u: User, gone: set<Path>, p: Path)
    ensures HoldsReadable(Forget(acls, u, gone), p, u, {}) <==> HoldsReadable(acls, p, u, gone)
  {
    var now := Forget(acls, u, gone);
    assert forall c :: c in acls ==> (Sees(now, c, u) <==> c !in gone && Sees(acls, c, u));
    if HoldsReadable(now, p, u, {}) {
      var c :| c in now && IsChild(c, p) && c !in {} && Sees(now, c, u);
      assert c in acls && IsChild(c, p) && c !in gone && Sees(acls, c, u);
    }
    if HoldsReadable(acls, p, u, gone) {
      var c :| c in acls && IsChild(c, p) && c !in gone && Sees(acls, c, u);
      assert c in now && IsChild(c, p) && c !in {} && Sees(now, c, u);
    }
  }

  /** What is taken from one user depends on that user's entries alone. */
  lemma {:induction false} ObsoleteIsPerUser(a: Acls, b: Acls, chain: seq<Path>, u: User, gone: set<Path>)
    requires a.Keys == b.Keys && forall p :: Entry(a, p, u) == Entry(b, p, u)
    ensures Obsolete(a, chain, u, gone) == Obsolete(b, chain, u, gone)
    decreases |chain|
  {
    if chain != [] {
      assert forall p :: Entry(a, p, u) == Entry(b, p, u) ==> Held(a, p, u) == Held(b, p, u);
      assert HoldsReadable(a, chain[0], u, gone) <==> HoldsReadable(b, chain[0], u, gone);
      ObsoleteIsPerUser(a, b, chain[1..], u, gone);
      ObsoleteIsPerUser(a, b, chain[1..], u, gone + {chain[0]});
    }
  }

  method RemoveObsoleteAccess(store: Store, move: MoveContext)
    modifies store`acls
    ensures var stops := {move.layout.home, [move.layout.zone, "trash", "home"]} + {move.layout.home + [move.user]};
            store.acls == ForgetObsolete(old(store.acls), Ancestors(move.source, stops),
                                         old(store.ListOf(Dir(move.source))).Keys - (move.admins + {move.user, move.proxy}))
  {
    var entries := store.ACL(Dir(move.source));
    var ancestors := AncestorsOf(move.source, move.CleanupStops());
    AncestorsDistinct(move.source, move.CleanupStops());
    ghost var before := store.acls;
    ForgetNobody(before, ancestors);
    assert UsersOf(entries[..0]) - move.Structural() == {};
    for i := 0 to |entries|
      invariant store.acls == ForgetObsolete(before, ancestors, UsersOf(entries[..i]) - move.Structural())
    {
      UsersOfOneMore(entries, i);
      ghost var done := UsersOf(entries[..i]) - move.Structural();
      if move.Ignores(entries[i].user) {
        assert UsersOf(entries[..i + 1]) - move.Structural() == done;
        continue;
      }
      WithdrawRead(store, ancestors, entries[i].user);
      assert entries[i].user !in UsersOf(entries[..i]);
      ForgetOneMore(before, ancestors, done, entries[i].user);
      assert UsersOf(entries[..i + 1]) - move.Structural() == done + {entries[i].user};
    }
    assert entries[..|entries|] == entries;
    assert UsersOf(entries) == old(store.ListOf(Dir(move.source))).Keys;
  }

  lemma AncestorsDistinct(p: Path, stops: set<Path>)
    ensures Distinct(Ancestors(p, stops))
  {
    var chain := Ancestors(p, stops);
    forall i, j | 0 <= i < j < |chain| ensures chain[i] != chain[j] {
      AncestorAt(p, stops, i);
      AncestorAt(p, stops, j);
    }
  }

  lemma ForgetNobody(acls: Acls, chain: seq<Path>)
    ensures ForgetObsolete(acls, chain, {}) == acls
  {
    SameAcls(ForgetObsolete(acls, chain, {}), acls);
  }

  lemma {:induction false} ForgetOneMore(acls: Acls, chain: seq<Path>, done: set<User>, u: User)
    requires u !in done
    ensures var now := ForgetObsolete(acls, chain, done);
            Forget(now, u, Obsolete(now, chain, u, {})) == ForgetObsolete(acls, chain, done + {u})
  {
    var now := ForgetObsolete(acls, chain, done);
    ObsoleteIsPerUser(acls, now, chain, u, {});
    SameAcls(Forget(now, u, Obsolete(now, chain, u, {})), ForgetObsolete(acls, chain, done + {u}));
  }

  // ----- The whole repair -----

  ghost function CleanedUp(acls: Acls, move: MoveContext): Acls {
    var parent := Dir(move.source);
    ForgetObsolete(acls, Ancestors(move.source, move.CleanupStops()),
                   (if parent in acls then acls[parent] else map[]).Keys - move.Structural())
  }

  ghost function Cleared(acls: Acls, move: MoveContext): Acls
    requires move.destination in acls
  {
    Revoke(acls, move.destination, acls[move.destination].Keys - move.Structural())
  }

  ghost function Inherited(acls: Acls, move: MoveContext): Acls
    requires Dir(move.destination) in acls
  {
    Grant(acls, move.destination, acls[Dir(move.destination)] - move.Structural())
  }

  ghost function Reachable(acls: Acls, move: MoveContext): Acls
    requires move.destination in acls
  {
    Reach(acls, acls[move.destination].Keys - move.Structural(),
          Ancestors(move.destination, move.layout.WalkRoots()))
  }

  predicate CanRepair(acls: Acls, move: MoveContext) {
    move.destination in acls && Dir(move.destination) in acls
  }

  /** The access lists a repair leaves, by whether the two collections inherit. */
  ghost function Repaired(acls: Acls, move: MoveContext, sourceInherits: bool, destinationInherits: bool): Acls
    requires CanRepair(acls, move)
  {
    if Dir(move.source) == Dir(move.destination) then acls
    else
      var cleaned := if sourceInherits then acls else CleanedUp(acls, move);
      if destinationInherits then Inherited(Cleared(cleaned, move), move)
      else if sourceInherits then Cleared(cleaned, move)
      else Reachable(cleaned, move)
  }

  /** Reading the inheritance of a collection that is not there is the store's error; everything
      else a repair does succeeds once the moved thing is in place. */
  method RepairPermissions(store: Store, move: MoveContext) returns (ok: bool)
    requires store.Valid()
    modifies store`acls
    ensures store.Valid() && store.acls.Keys == old(store.acls.Keys)
    ensures move.destination in old(store.acls) ==>
      (ok <==> Dir(move.source) == Dir(move.destination) || Dir(move.source) in old(store.acls))
    ensures ok && move.destination in old(store.acls) ==>
      store.acls == old(Repaired(store.acls, move, Dir(move.source) in store.inherits,
                                 Dir(move.destination) in store.inherits))
  {
    var sourceParent, destinationParent := Dir(move.source), Dir(move.destination);
    if sourceParent == destinationParent {
      return true;
    }
    var sourceInherits, destinationInherits;
    ok, sourceInherits := store.Inherits(sourceParent);
    if !ok {
      return;
    }
    ok, destinationInherits := store.Inherits(destinationParent);
    if !ok {
      return;
    }
    if !sourceInherits {
      RemoveObsoleteAccess(store, move);
    }
    if destinationInherits {
      ok := ClearAccess(store, move);
      if !ok {
        return;
      }
      ok := GrantParentAccess(store, move);
    } else if sourceInherits {
      ok := ClearAccess(store, move);
    } else {
      AncestorsExist(store.acls.Keys, move.destination, move.layout.WalkRoots());
      ok := GrantAncestorAccess(store, move);
    }
  }

  lemma AncestorsExist(nodes: set<Path>, p: Path, stops: set<Path>)
    requires IsTree(nodes)
    ensures p in nodes ==> forall a :: a in Ancestors(p, stops) ==> a in nodes
  {
    if p in nodes {
      forall a | a in Ancestors(p, stops) ensures a in nodes {
        InAncestors(p, stops, a);
        TreeIsPrefixClosed(nodes, p, a);
      }
    }
  }

  /** Neither parent is part of what moves, so each is afterwards what it was before. */
  lemma ParentsSurviveMove(nodes: set<Path>, some: set<Path>, from: Path, to: Path)
    requires IsTree(nodes) && some <= nodes
    requires from in nodes && from != [] && to !in nodes && !(from <= to) && Dir(to) in nodes
    ensures to in MovedSet(nodes, from, to)
    ensures Dir(from) in MovedSet(some, from, to) <==> Dir(from) in some
    ensures Dir(to) in MovedSet(some, from, to) <==> Dir(to) in some
  {
    MovedNode(nodes, nodes, from, to, to);
    assert from + to[|to|..] == from;
    MovedNode(nodes, some, from, to, Dir(from));
    MovedNode(nodes, some, from, to, Dir(to));
    if to <= Dir(from) { TreeIsPrefixClosed(nodes, Dir(from), to); }
  }

  /** Moves one path and repairs its permissions. Refused, with nothing changed, unless the source is
      there, the destination is free and outside it, and its parent is a collection. */
  method MoveOne(store: Store, move: MoveContext) returns (ok: bool)
    requires store.Valid()
    modifies store
    ensures store.Valid()
    ensures ok <==> old(CanMove(store.acls.Keys, store.collections, move.source, move.destination))
    ensures !ok ==> store.acls == old(store.acls) && store.inherits == old(store.inherits) && store.collections == old(store.collections)
    ensures ok ==> CanRepair(old(Moved(store.acls, move.source, move.destination)), move)
    ensures ok ==>
      && store.acls == old(Repaired(Moved(store.acls, move.source, move.destination), move,
           Dir(move.source) in store.inherits, Dir(move.destination) in store.inherits))
      && store.inherits == MovedSet(old(store.inherits), move.source, move.destination)
      && store.collections == MovedSet(old(store.collections), move.source, move.destination)
    ensures ok ==> store.acls.Keys == MovedSet(old(store.acls.Keys), move.source, move.destination)
    ensures store.avus == if ok then MovedAvus(old(store.avus), move.source, move.destination) else old(store.avus)
  {
    ghost var nodes, inherits := store.acls.Keys, store.inherits;
    ok := store.Move(move.source, move.destination);
    if !ok {
      return;
    }
    ParentsSurviveMove(nodes, nodes, move.source, move.destination);
    ParentsSurviveMove(nodes, inherits, move.source, move.destination);
    ok := RepairPermissions(store, move);
  }
}
