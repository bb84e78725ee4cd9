/** Sharing one path with one user and taking it back. */
module Sharing {
  import opened Paths
  import opened Access
  import opened Stores
  import opened Permissions
  import opened Navigability
  import opened RepairOutcome

  datatype ShareRequest = ShareRequest(
    owner: User, sharee: User, path: Path, permission: Level, admins: set<User>, proxy: User, layout: Layout)
  {
    function Home(): Path { OwnerHomeOf(path) }

    function Stops(): set<Path> { {Home(), layout.TrashBase()} }

    /** The collections between the path and its owner's home. */
    function Between(): seq<Path> { Ancestors(path, Stops()) }
  }

  datatype Outcome = Done | ShareWithSelf | ShareFromTrash | AlreadyShared | UnshareWithSelf | NotShared | StoreError

  /** The home a path lies under, read off the path itself. */
  function OwnerHomeOf(p: Path): Path {
    if |p| < 3 then p else p[..3]
  }

  /** The sharee let in to everything above. */
  function LetInUpwards(acls: Acls, req: ShareRequest): Acls {
    Reach(Reach(acls, {req.sharee}, req.Between()), {req.sharee}, [req.Home()])
  }

  function Shared(acls: Acls, req: ShareRequest): Acls {
    SetPerm(LetInUpwards(acls, req), req.path, req.sharee, req.permission, true)
  }

  function Taken(acls: Acls, req: ShareRequest): Acls {
    SetPerm(acls, req.path, req.sharee, None, true)
  }

  ghost function Unshared(acls: Acls, req: ShareRequest): Acls {
    Forget(Taken(acls, req), req.sharee, Obsolete(Taken(acls, req), req.Between(), req.sharee, {}))
  }

  /** Gives the sharee at least read on one collection. */
  method LetIn(store: Store, p: Path, u: User) returns (ok: bool)
    modifies store`acls
    ensures p in old(store.acls) ==> ok && store.acls == Reach(old(store.acls), {u}, [p])
    ensures store.acls.Keys == old(store.acls.Keys)
  {
    ok := true;
    var current := store.PermissionOf(p, u);
    if Permits(current, Read) {
      AlreadyIn(store.acls, p, u);
      return;
    }
    ReachOne(store.acls, u, p);
    ok := store.SetPermission(p, u, Read, false);
  }

  lemma AlreadyIn(acls: Acls, p: Path, u: User)
    requires Sees(acls, p, u)
    ensures Reach(acls, {u}, [p]) == acls
  {
    SameAcls(Reach(acls, {u}, [p]), acls);
  }

  /** Lets the sharee read each collection between the shared thing and the owner's home. */
  method LetInAll(store: Store, req: ShareRequest) returns (ok: bool)
    requires store.Valid()
    modifies store`acls
    ensures store.Valid() && store.acls.Keys == old(store.acls.Keys)
    ensures req.path in old(store.acls) ==>
      ok && store.acls == Reach(old(store.acls), {req.sharee}, Ancestors(req.path, req.Stops()))
  {
    var ancestors := AncestorsOf(req.path, req.Stops());
    AncestorsExist(store.acls.Keys, req.path, req.Stops());
    ghost var before := store.acls;
    ReachNobody(before, {req.sharee}, []);
    for i := 0 to |ancestors|
      invariant store.acls.Keys == before.Keys
      invariant req.path in before ==> store.acls == Reach(before, {req.sharee}, ancestors[..i])
    {
      ReachOneMore(before, req.sharee, ancestors, i);
      ok := LetIn(store, ancestors[i], req.sharee);
      if !ok {
        return;
      }
    }
    assert ancestors[..|ancestors|] == ancestors;
    ok := true;
  }

  lemma ReachOneMore(acls: Acls, u: User, places: seq<Path>, i: nat)
    requires i < |places|
    ensures Reach(Reach(acls, {u}, places[..i]), {u}, [places[i]]) == Reach(acls, {u}, places[..i + 1])
  {
    assert places[..i + 1] == places[..i] + [places[i]];
    ReachFarther(acls, u, places[..i], places[i]);
  }

  method Share(store: Store, req: ShareRequest) returns (outcome: Outcome)
    requires store.Valid()
    modifies store`acls, store`inherits
    ensures store.Valid() && store.acls.Keys == old(store.acls.Keys)
    ensures outcome == ShareWithSelf <==> req.owner == req.sharee
    ensures outcome == ShareFromTrash <==> req.owner != req.sharee && [req.layout.zone, "trash", "home"] <= req.path
    ensures outcome == AlreadyShared <==>
      && req.owner != req.sharee && !([req.layout.zone, "trash", "home"] <= req.path)
      && old(Held(store.acls, req.path, req.sharee)) == req.permission
    ensures outcome in {ShareWithSelf, ShareFromTrash, AlreadyShared} ==>
      store.acls == old(store.acls) && store.inherits == old(store.inherits)
    ensures req.path in old(store.acls) ==> outcome in {ShareWithSelf, ShareFromTrash, AlreadyShared, Done}
    ensures outcome == Done && req.path in old(store.acls) ==>
      && store.acls == Shared(old(store.acls), req)
      && store.inherits == SharedFlags(old(store.inherits), store.collections, req)
  {
    if req.owner == req.sharee {
      return ShareWithSelf;
    }
    if req.layout.InTrash(req.path) {
      return ShareFromTrash;
    }
    var held := store.PermissionOf(req.path, req.sharee);
    if held == req.permission {
      return AlreadyShared;
    }

    var ok := LetInAll(store, req);
    if !ok {
      return StoreError;
    }
    store.SetInherit(req.path, true);

    if req.path in store.acls { TreeIsPrefixClosed(store.acls.Keys, req.path, req.Home()); }
    ok := LetIn(store, req.Home(), req.sharee);
    if !ok {
      return StoreError;
    }
    ok := store.SetPermission(req.path, req.sharee, req.permission, true);
    return if ok then Done else StoreError;
  }

  method Unshare(store: Store, req: ShareRequest) returns (outcome: Outcome)
    requires store.Valid()
    modifies store`acls, store`inherits
    ensures store.Valid()
    ensures outcome == UnshareWithSelf <==> req.owner == req.sharee
    ensures outcome == NotShared <==> req.owner != req.sharee && !old(Sees(store.acls, req.path, req.sharee))
    ensures outcome in {UnshareWithSelf, NotShared, Done}
    ensures outcome != Done ==> store.acls == old(store.acls) && store.inherits == old(store.inherits)
    ensures outcome == Done ==>
      && store.acls == Unshared(old(store.acls), req)
      && store.inherits == UnsharedFlags(old(store.acls), old(store.inherits), store.collections, req)
  {
    if req.owner == req.sharee {
      return UnshareWithSelf;
    }
    var held := store.PermissionOf(req.path, req.sharee);
    if !Permits(held, Read) {
      return NotShared;
    }
    var _ := store.SetPermission(req.path, req.sharee, None, true);
    if req.path in store.collections {
      ClearInheritWhenUnshared(store, req);
    }
    var ancestors := AncestorsOf(req.path, req.Stops());
    AncestorsDistinct(req.path, req.Stops());
    WithdrawRead(store, ancestors, req.sharee);
    return Done;
  }

  /** The inheritance flags a share leaves. */
  function SharedFlags(inherits: set<Path>, collections: set<Path>, req: ShareRequest): set<Path> {
    if req.path in collections then inherits + CollectionsUnder(collections, req.path) else inherits
  }

  /** The flags an unshare leaves, by who is on the list besides the sharee. */
  function UnsharedFlags(acls: Acls, inherits: set<Path>, collections: set<Path>, req: ShareRequest): set<Path>
    requires req.path in acls
  {
    if req.path in collections && SharedWithNobody(acls[req.path] - {req.sharee}, req)
    then inherits - CollectionsUnder(collections, req.path)
    else inherits
  }

  predicate SharedWithNobody(acl: Acl, req: ShareRequest) {
    forall u :: u in acl ==> u == req.owner || u == req.proxy || u in req.admins
  }

  method ClearInheritWhenUnshared(store: Store, req: ShareRequest)
    requires store.Valid() && req.path in store.collections
    modifies store`inherits
    ensures store.Valid()
    ensures store.inherits == if SharedWithNobody(store.acls[req.path], req)
                              then old(store.inherits) - CollectionsUnder(store.collections, req.path)
                              else old(store.inherits)
  {
    var entries := store.ACL(req.path);
    for i := 0 to |entries|
      invariant forall j :: 0 <= j < i ==>
                  entries[j].user == req.owner || entries[j].user == req.proxy || entries[j].user in req.admins
    {
      if !(entries[i].user == req.owner || entries[i].user == req.proxy || entries[i].user in req.admins) {
        return;
      }
    }
    store.SetInherit(req.path, false);
  }

  // ----- What sharing promises -----

  lemma ReachEntry(acls: Acls, v: User, places: seq<Path>, p: Path, u: User)
    requires p in acls
    ensures var now := Reach(acls, {v}, places);
            && now.Keys == acls.Keys
            && Entry(now, p, u) == if u == v && p in places && Held(acls, p, u) !in {Write, Own} then Listed(Read)
                                   else Entry(acls, p, u)
  {
  }

  lemma LetInExactly(acls: Acls, req: ShareRequest, p: Path, u: User)
    requires p in acls
    ensures var now := LetInUpwards(acls, req);
            && now.Keys == acls.Keys
            && (u != req.sharee ==> Entry(now, p, u) == Entry(acls, p, u))
            && (u == req.sharee ==>
                  Held(now, p, u) == if Held(acls, p, u) == None && (p in req.Between() || p == req.Home()) then Read
                                     else Held(acls, p, u))
  {
    ReachEntry(acls, req.sharee, req.Between(), p, u);
    ReachEntry(Reach(acls, {req.sharee}, req.Between()), req.sharee, [req.Home()], p, u);
  }

  lemma PutEntry(acls: Acls, p: Path, v: User, level: Level, q: Path, u: User)
    requires q in acls
    ensures var now := SetPerm(acls, p, v, level, true);
            && now.Keys == acls.Keys
            && (u == v && p <= q ==> Held(now, q, u) == level)
            && (!(u == v && p <= q) ==> Entry(now, q, u) == Entry(acls, q, u))
  {
  }

  /** Below the shared path the sharee holds what was asked for; above it at least read as far as the
      owner's home; nowhere else anything changes, and write and own never do. */
  lemma {:induction false} SharedExactly(acls: Acls, req: ShareRequest, p: Path, u: User)
    requires p in acls
    ensures var now := Shared(acls, req);
            && now.Keys == acls.Keys
            && (u != req.sharee ==> Entry(now, p, u) == Entry(acls, p, u))
            && (req.path <= p ==> Held(now, p, req.sharee) == req.permission)
            && (!(req.path <= p) ==>
                  Held(now, p, req.sharee)
                  == if Held(acls, p, req.sharee) == None && (p in req.Between() || p == req.Home()) then Read
                     else Held(acls, p, req.sharee))
  {
    LetInExactly(acls, req, p, u);
    LetInExactly(acls, req, p, req.sharee);
    PutEntry(LetInUpwards(acls, req), req.path, req.sharee, req.permission, p, u);
    PutEntry(LetInUpwards(acls, req), req.path, req.sharee, req.permission, p, req.sharee);
  }

  lemma UnsharedExactly(acls: Acls, req: ShareRequest, p: Path, u: User)
    requires p in acls
    ensures var now := Unshared(acls, req);
            && now.Keys == acls.Keys
            && (u != req.sharee ==> Entry(now, p, u) == Entry(acls, p, u))
            && (req.path <= p ==> Entry(now, p, req.sharee) == Unlisted)
            && (!(req.path <= p) ==>
                  Entry(now, p, req.sharee)
                  == if p in Obsolete(Taken(acls, req), req.Between(), req.sharee, {}) then Unlisted
                     else Entry(acls, p, req.sharee))
  {
  }

  /** Above the owner's home there is nothing left to climb that the sharee cannot see. */
  ghost predicate HomeIsClimbable(acls: Acls, req: ShareRequest, structural: set<User>) {
    || req.sharee in structural || |req.path| <= 3
    || req.path[..2] in Roots(req.layout) || Sees(acls, req.path[..2], req.sharee)
  }

  lemma OthersStillClimb(acls: Acls, now: Acls, roots: set<Path>, structural: set<User>, v: User)
    requires now.Keys == acls.Keys && forall p, u :: u != v && p in acls ==> Entry(now, p, u) == Entry(acls, p, u)
    requires IsTree(acls.Keys) && StepNavigable(acls, roots, structural)
    requires v in structural
             || forall p :: p in acls && Sees(now, p, v) && Climbs(p, roots) ==> Sees(now, Dir(p), v)
    ensures StepNavigable(now, roots, structural)
  {
    forall p, u | p in now && u !in structural && Sees(now, p, u) && Climbs(p, roots) ensures Sees(now, Dir(p), u) {
      if u != v {
        assert Entry(now, p, u) == Entry(acls, p, u) && Entry(now, Dir(p), u) == Entry(acls, Dir(p), u);
      }
    }
  }

  /** Where a share lets the sharee in, the collection above is one it lets them into as well, short of
      the home. */
  lemma BetweenIsContiguous(req: ShareRequest, p: Path)
    requires p == req.path || p in req.Between()
    ensures p in req.Between() ==> p < req.path && 2 <= |p| && (3 < |req.path| ==> 3 < |p|)
    ensures |Dir(p)| < 2 || Dir(p) in req.Between() || Dir(p) == req.Home() || Dir(p) == req.layout.TrashBase()
  {
    InAncestors(req.path, req.Stops(), p);
    InAncestors(req.path, req.Stops(), Dir(p));
    assert 3 < |req.path| ==> req.path[..3] == req.Home();
    if 2 <= |Dir(p)| && Dir(p) !in req.Stops() {
      forall i | |Dir(p)| <= i < |req.path| ensures req.path[..i] !in req.Stops() {
        if i == |Dir(p)| { assert req.path[..i] == Dir(p); }
      }
    }
  }

  lemma ShareeClimbs(acls: Acls, req: ShareRequest, structural: set<User>, p: Path)
    requires IsTree(acls.Keys) && req.path in acls && req.permission != None && req.sharee !in structural
    requires StepNavigable(acls, Roots(req.layout), structural)
    requires p in acls && Sees(Shared(acls, req), p, req.sharee) && Climbs(p, Roots(req.layout))
    requires p != req.Home() || HomeIsClimbable(acls, req, structural)
    ensures Sees(Shared(acls, req), Dir(p), req.sharee)
  {
    SharedExactly(acls, req, p, req.sharee);
    SharedExactly(acls, req, Dir(p), req.sharee);
    if !(req.path < p) && !Sees(acls, p, req.sharee) {
      if p == req.path || p in req.Between() {
        BetweenIsContiguous(req, p);
      } else {
        assert 3 < |req.path| && p == req.path[..3] && Dir(p) == req.path[..2];
      }
    }
  }

  /** Main result: sharing keeps everybody able to climb exactly when the walk to the owner's home has
      nothing left above it: the path is no deeper than a home, the home lies in a walk root, or the
      sharee already saw the collection the home lies in. */
  lemma ShareKeepsNavigableExactly(acls: Acls, req: ShareRequest, structural: set<User>)
    requires IsTree(acls.Keys) && req.path in acls && req.permission != None
    requires Navigable(acls, Roots(req.layout), structural)
    ensures Navigable(Shared(acls, req), Roots(req.layout), structural) <==> HomeIsClimbable(acls, req, structural)
  {
    var now, roots := Shared(acls, req), Roots(req.layout);
    NavigableIffStep(acls, roots, structural);
    NavigableIffStep(now, roots, structural);
    forall p, u | u != req.sharee && p in acls ensures Entry(now, p, u) == Entry(acls, p, u) {
      SharedExactly(acls, req, p, u);
    }
    if HomeIsClimbable(acls, req, structural) {
      if req.sharee !in structural {
        forall p | p in acls && Sees(now, p, req.sharee) && Climbs(p, roots) ensures Sees(now, Dir(p), req.sharee) {
          ShareeClimbs(acls, req, structural, p);
        }
      }
      OthersStillClimb(acls, now, roots, structural, req.sharee);
    } else {
      HomeIsStranded(acls, req, structural);
    }
  }

  lemma HomeIsStranded(acls: Acls, req: ShareRequest, structural: set<User>)
    requires IsTree(acls.Keys) && req.path in acls && req.permission != None
    requires !HomeIsClimbable(acls, req, structural)
    ensures !StepNavigable(Shared(acls, req), Roots(req.layout), structural)
  {
    var home, above := req.Home(), req.path[..2];
    assert Dir(home) == above && !(req.path <= home) && !(req.path <= above);
    TreeIsPrefixClosed(acls.Keys, req.path, home);
    SharedExactly(acls, req, home, req.sharee);
    SharedExactly(acls, req, above, req.sharee);
    if above in req.Between() {
      BetweenIsContiguous(req, above);
    } else {
      assert Climbs(home, Roots(req.layout));
    }
  }

  /** Main result: taking a share back keeps everybody able to climb. */
  lemma {:induction false} UnshareKeepsNavigable(acls: Acls, req: ShareRequest, structural: set<User>)
    requires IsTree(acls.Keys) && req.path in acls
    requires Navigable(acls, Roots(req.layout), structural)
    ensures Navigable(Unshared(acls, req), Roots(req.layout), structural)
  {
    var now, roots := Unshared(acls, req), Roots(req.layout);
    NavigableIffStep(acls, roots, structural);
    NavigableIffStep(now, roots, structural);
    if req.sharee !in structural {
      forall p | p in acls && Sees(now, p, req.sharee) && Climbs(p, roots) ensures Sees(now, Dir(p), req.sharee) {
        UnsharedExactly(acls, req, p, req.sharee);
        UnsharedExactly(acls, req, Dir(p), req.sharee);
        if Dir(p) in Obsolete(Taken(acls, req), req.Between(), req.sharee, {}) {
          ObsoleteMeansNothingElseSeen(Taken(acls, req), req.Between(), req.sharee, {}, Dir(p), p);
        }
      }
    }
    forall p, u | u != req.sharee && p in acls ensures Entry(now, p, u) == Entry(acls, p, u) {
      UnsharedExactly(acls, req, p, u);
    }
    OthersStillClimb(acls, now, roots, structural, req.sharee);
  }

  // ----- Taking a share back undoes it -----

  /** The sharee sees nothing at the path, which lies below a home of the layout. */
  ghost predicate NewShare(acls: Acls, req: ShareRequest, structural: set<User>) {
    && IsTree(acls.Keys) && req.path in acls && req.permission != None && req.sharee !in structural
    && 3 < |req.path| && req.path[..2] == req.layout.home
    && !Sees(acls, req.path, req.sharee)
    && Navigable(acls, Roots(req.layout), structural)
  }

  /** Every read the sharee already had on the way is one with something to read behind it. */
  ghost predicate ReadsLeadSomewhere(acls: Acls, req: ShareRequest) {
    forall a :: a in req.Between() && Held(acls, a, req.sharee) == Read ==> HoldsReadable(acls, a, req.sharee, {})
  }

  /** Nobody's level differs anywhere, apart from the sharee's on the owner's home. */
  ghost predicate SameButForHome(acls: Acls, now: Acls, req: ShareRequest) {
    forall p, u :: p in acls && !(p == req.Home() && u == req.sharee) ==> Held(now, p, u) == Held(acls, p, u)
  }

  /** The lists as the walk of an unshare finds them. */
  function WalkStart(acls: Acls, req: ShareRequest): Acls { Taken(Shared(acls, req), req) }

  lemma WalkStartExactly(acls: Acls, req: ShareRequest, p: Path)
    requires p in acls
    ensures var now := WalkStart(acls, req);
            Held(now, p, req.sharee)
            == if req.path <= p then None
               else if Held(acls, p, req.sharee) == None && (p in req.Between() || p == req.Home()) then Read
               else Held(acls, p, req.sharee)
  {
    SharedExactly(acls, req, p, req.sharee);
  }

  lemma WalkIsSeen(acls: Acls, req: ShareRequest, structural: set<User>)
    requires NewShare(acls, req, structural)
    ensures IsSeenWalk(WalkStart(acls, req), req.Between(), req.sharee)
  {
    var chain := Ancestors(req.path, req.Stops());
    AncestorsDistinct(req.path, req.Stops());
    forall j | 0 < j < |chain| ensures IsChild(chain[j - 1], chain[j]) {
      AncestorAt(req.path, req.Stops(), j);
    }
    forall j | 0 <= j < |chain| ensures chain[j] in WalkStart(acls, req) && Sees(WalkStart(acls, req), chain[j], req.sharee) {
      BetweenIsSeen(acls, req, chain[j]);
    }
  }

  lemma BetweenIsSeen(acls: Acls, req: ShareRequest, a: Path)
    requires IsTree(acls.Keys) && req.path in acls && 3 < |req.path| && a in req.Between()
    ensures a in acls && a in WalkStart(acls, req) && Sees(WalkStart(acls, req), a, req.sharee)
    ensures a < req.path && 3 < |a|
  {
    BetweenIsContiguous(req, a);
    TreeIsPrefixClosed(acls.Keys, req.path, a);
    WalkStartExactly(acls, req, a);
  }

  /** Seen before the share, from the first seen collection of the walk upwards. */
  lemma SeenUpwards(acls: Acls, req: ShareRequest, structural: set<User>, c: Path, a: Path)
    requires NewShare(acls, req, structural)
    requires a in req.Between() && c in acls && IsChild(c, a) && Sees(acls, c, req.sharee)
    ensures Sees(acls, a, req.sharee)
  {
    BetweenIsSeen(acls, req, a);
    assert Climbs(c, Roots(req.layout));
    assert Ancestors(c, Roots(req.layout))[0] == a;
  }

  /** One step of the walk back: what the share let the sharee into leads nowhere else; what they saw
      before does so exactly when it was read with nothing behind it. */
  lemma WalkBackStep(acls: Acls, req: ShareRequest, structural: set<User>, j: nat)
    requires NewShare(acls, req, structural) && j < |req.Between()|
    requires j > 0 ==> !Sees(acls, req.Between()[j - 1], req.sharee)
    ensures LedNowhereElse(WalkStart(acls, req), req.Between(), req.sharee, j)
       <==> || !Sees(acls, req.Between()[j], req.sharee)
            || (Held(acls, req.Between()[j], req.sharee) == Read
                && !HoldsReadable(acls, req.Between()[j], req.sharee, {}))
  {
    var chain, now := req.Between(), WalkStart(acls, req);
    var a := chain[j];
    BetweenIsSeen(acls, req, a);
    if j > 0 { AncestorAt(req.path, req.Stops(), j); }
    WalkStartExactly(acls, req, a);
    forall c | c in acls && IsChild(c, a)
      ensures Sees(acls, c, req.sharee) ==> Sees(now, c, req.sharee)
      ensures Sees(now, c, req.sharee) && !(j > 0 && c == chain[j - 1]) ==> Sees(acls, c, req.sharee)
      ensures j > 0 && c == chain[j - 1] ==> !Sees(acls, c, req.sharee)
    {
      WalkStartExactly(acls, req, c);
      if req.path <= c {
        assert c == req.path;
      } else if c in chain {
        var i :| 0 <= i < |chain| && chain[i] == c;
        AncestorAt(req.path, req.Stops(), i);
        AncestorAt(req.path, req.Stops(), j);
        assert i + 1 == j;
      }
    }
    if HoldsReadable(acls, a, req.sharee, {}) {
      var c :| c in acls && IsChild(c, a) && c !in {} && Sees(acls, c, req.sharee);
      SeenUpwards(acls, req, structural, c, a);
      assert c in now && IsChild(c, a) && Sees(now, c, req.sharee) && !(j > 0 && c == chain[j - 1]);
    } else {
      forall c | c in now && IsChild(c, a) && Sees(now, c, req.sharee) ensures j > 0 && c == chain[j - 1] {
        assert c in acls && c !in {} && IsChild(c, a);
      }
    }
  }

  /** The collections of the walk are there, each directly inside the next. */
  lemma WalkGoesUp(acls: Acls, req: ShareRequest, structural: set<User>, k: nat)
    requires NewShare(acls, req, structural) && 0 < k < |req.Between()|
    ensures req.Between()[k - 1] in acls && IsChild(req.Between()[k - 1], req.Between()[k])
  {
    BetweenIsSeen(acls, req, req.Between()[k - 1]);
    AncestorAt(req.path, req.Stops(), k);
  }

  lemma {:induction false} SeenFrom(acls: Acls, req: ShareRequest, structural: set<User>, i: nat, k: nat)
    requires NewShare(acls, req, structural) && i <= k < |req.Between()|
    requires Sees(acls, req.Between()[i], req.sharee)
    ensures Sees(acls, req.Between()[k], req.sharee)
    decreases k
  {
    if i < k {
      SeenFrom(acls, req, structural, i, k - 1);
      WalkGoesUp(acls, req, structural, k);
      SeenUpwards(acls, req, structural, req.Between()[k - 1], req.Between()[k]);
    }
  }

  /** The first collection of the walk that the sharee saw before the share. */
  ghost predicate FirstSeen(acls: Acls, req: ShareRequest, k: nat) {
    && k <= |req.Between()|
    && (forall i :: 0 <= i < k ==> !Sees(acls, req.Between()[i], req.sharee))
    && (k < |req.Between()| ==> Sees(acls, req.Between()[k], req.sharee))
  }

  lemma {:induction false} FindFirstSeen(acls: Acls, req: ShareRequest, i: nat) returns (k: nat)
    requires i <= |req.Between()| && forall j :: 0 <= j < i ==> !Sees(acls, req.Between()[j], req.sharee)
    ensures FirstSeen(acls, req, k)
    decreases |req.Between()| - i
  {
    if i == |req.Between()| || Sees(acls, req.Between()[i], req.sharee) {
      k := i;
    } else {
      k := FindFirstSeen(acls, req, i + 1);
    }
  }

  /** Only the lowest read the sharee had can lead nowhere: above it there is the collection below. */
  lemma LowestReadDecides(acls: Acls, req: ShareRequest, structural: set<User>, k: nat)
    requires NewShare(acls, req, structural) && FirstSeen(acls, req, k)
    ensures ReadsLeadSomewhere(acls, req)
       <==> !(k < |req.Between()| && Held(acls, req.Between()[k], req.sharee) == Read
              && !HoldsReadable(acls, req.Between()[k], req.sharee, {}))
  {
    var chain := req.Between();
    forall i | k < i < |chain| ensures HoldsReadable(acls, chain[i], req.sharee, {}) {
      SomethingBelowIsSeen(acls, req, structural, k, i);
    }
    forall a | a in chain && Held(acls, a, req.sharee) == Read && (k == |chain| || a != chain[k])
      ensures HoldsReadable(acls, a, req.sharee, {})
    {
      var i :| 0 <= i < |chain| && chain[i] == a;
    }
  }

  lemma SomethingBelowIsSeen(acls: Acls, req: ShareRequest, structural: set<User>, k: nat, i: nat)
    requires NewShare(acls, req, structural) && FirstSeen(acls, req, k) && k < i < |req.Between()|
    ensures HoldsReadable(acls, req.Between()[i], req.sharee, {})
  {
    SeenFrom(acls, req, structural, k, i - 1);
    WalkGoesUp(acls, req, structural, i);
    ReadableBelow(acls, req.Between()[i], req.sharee, req.Between()[i - 1]);
  }

  lemma ReadableBelow(acls: Acls, a: Path, u: User, c: Path)
    requires c in acls && IsChild(c, a) && Sees(acls, c, u)
    ensures HoldsReadable(acls, a, u, {})
  {
    assert c !in {};
  }

  lemma {:induction false} TakenOnTheWayBack(acls: Acls, req: ShareRequest, structural: set<User>, k: nat, i: nat)
    requires NewShare(acls, req, structural) && FirstSeen(acls, req, k) && i < |req.Between()|
    ensures var taken := req.Between()[i] in Obsolete(WalkStart(acls, req), req.Between(), req.sharee, {});
            && (i < k ==> taken)
            && (k <= i && ReadsLeadSomewhere(acls, req) ==> !taken)
            && (k == i && !ReadsLeadSomewhere(acls, req) ==> taken)
  {
    var now, chain := WalkStart(acls, req), req.Between();
    WalkIsSeen(acls, req, structural);
    LowestReadDecides(acls, req, structural, k);
    TakenBackExactly(now, req.path, req.Stops(), req.sharee, i);
    forall j | 0 <= j < k ensures LedNowhereElse(now, chain, req.sharee, j) {
      WalkBackStep(acls, req, structural, j);
    }
    if k < |chain| {
      WalkBackStep(acls, req, structural, k);
    }
  }

  lemma {:induction false} WalkBackAlong(acls: Acls, req: ShareRequest, structural: set<User>, p: Path)
    requires NewShare(acls, req, structural) && p in req.Between()
    ensures var taken := p in Obsolete(WalkStart(acls, req), req.Between(), req.sharee, {});
            && (!Sees(acls, p, req.sharee) ==> taken)
            && (Sees(acls, p, req.sharee) && ReadsLeadSomewhere(acls, req) ==> !taken)
  {
    var chain := req.Between();
    var k := FindFirstSeen(acls, req, 0);
    var i :| 0 <= i < |chain| && chain[i] == p;
    TakenOnTheWayBack(acls, req, structural, k, i);
    if k <= i { SeenFrom(acls, req, structural, k, i); }
  }

  lemma {:induction false} ReadThatLedNowhereIsLost(acls: Acls, req: ShareRequest, structural: set<User>) returns (p: Path)
    requires NewShare(acls, req, structural) && !ReadsLeadSomewhere(acls, req)
    ensures p in req.Between() && p in acls && Sees(acls, p, req.sharee)
    ensures !Sees(Unshared(Shared(acls, req), req), p, req.sharee)
  {
    var k := FindFirstSeen(acls, req, 0);
    LowestReadDecides(acls, req, structural, k);
    TakenOnTheWayBack(acls, req, structural, k, k);
    p := req.Between()[k];
    BetweenIsSeen(acls, req, p);
    ShareeAfterWalkBack(acls, req, p);
  }

  /** The sharee's level on one path, when every read they had led somewhere. */
  lemma {:induction false} ShareeRestored(acls: Acls, req: ShareRequest, structural: set<User>, p: Path)
    requires NewShare(acls, req, structural) && ReadsLeadSomewhere(acls, req) && p in acls && p != req.Home()
    ensures Held(Unshared(Shared(acls, req), req), p, req.sharee) == Held(acls, p, req.sharee)
  {
    ShareeAfterWalkBack(acls, req, p);
    if req.path <= p {
      UnseenBelow(acls, req, structural, p);
    } else if p in req.Between() {
      WalkBackAlong(acls, req, structural, p);
    } else if p in Obsolete(WalkStart(acls, req), req.Between(), req.sharee, {}) {
      ObsoleteIsReadOnChain(WalkStart(acls, req), req.Between(), req.sharee, {}, p);
    }
  }

  /** Main result: taking a new share back restores every level everywhere, apart from read left on
      the owner's home, exactly when every read the sharee had on the way led somewhere already. */
  lemma {:induction false} UnshareUndoesShareExactly(acls: Acls, req: ShareRequest, structural: set<User>)
    requires NewShare(acls, req, structural)
    ensures SameButForHome(acls, Unshared(Shared(acls, req), req), req) <==> ReadsLeadSomewhere(acls, req)
    ensures Held(Unshared(Shared(acls, req), req), req.Home(), req.sharee)
         == if Held(acls, req.Home(), req.sharee) == None then Read else Held(acls, req.Home(), req.sharee)
  {
    var now := Unshared(Shared(acls, req), req);
    if ReadsLeadSomewhere(acls, req) {
      forall p, u | p in acls && !(p == req.Home() && u == req.sharee) ensures Held(now, p, u) == Held(acls, p, u) {
        if u == req.sharee {
          ShareeRestored(acls, req, structural, p);
        } else {
          OthersUntouched(acls, req, p, u);
        }
      }
    } else {
      var p := ReadThatLedNowhereIsLost(acls, req, structural);
      BetweenIsSeen(acls, req, p);
      assert Held(now, p, req.sharee) != Held(acls, p, req.sharee) && p != req.Home();
    }
    HomeAfterWalkBack(acls, req);
  }

  lemma HomeAfterWalkBack(acls: Acls, req: ShareRequest)
    requires IsTree(acls.Keys) && req.path in acls && 3 < |req.path|
    ensures Held(Unshared(Shared(acls, req), req), req.Home(), req.sharee)
         == if Held(acls, req.Home(), req.sharee) == None then Read else Held(acls, req.Home(), req.sharee)
  {
    TreeIsPrefixClosed(acls.Keys, req.path, req.Home());
    ShareeAfterWalkBack(acls, req, req.Home());
    if req.Home() in Obsolete(WalkStart(acls, req), req.Between(), req.sharee, {}) {
      ObsoleteIsReadOnChain(WalkStart(acls, req), req.Between(), req.sharee, {}, req.Home());
      BetweenIsContiguous(req, req.Home());
    }
  }

  lemma {:induction false} UnseenBelow(acls: Acls, req: ShareRequest, structural: set<User>, p: Path)
    requires NewShare(acls, req, structural) && p in acls && req.path <= p
    ensures !Sees(acls, p, req.sharee)
  {
    if Sees(acls, p, req.sharee) && p != req.path {
      var roots := Roots(req.layout);
      forall i | |req.path| <= i < |p| ensures p[..i] !in roots {
        assert |p[..i]| == i;
      }
      InAncestors(p, roots, req.path);
    }
  }

  /** What is left of the sharee's level after the walk back. */
  ghost predicate AfterWalkBack(acls: Acls, req: ShareRequest, p: Path, level: Level) {
    level
    == if req.path <= p || p in Obsolete(WalkStart(acls, req), req.Between(), req.sharee, {}) then None
       else if Held(acls, p, req.sharee) == None && (p in req.Between() || p == req.Home()) then Read
       else Held(acls, p, req.sharee)
  }

  lemma ShareeAfterWalkBack(acls: Acls, req: ShareRequest, p: Path)
    requires p in acls
    ensures AfterWalkBack(acls, req, p, Held(Unshared(Shared(acls, req), req), p, req.sharee))
  {
    WalkStartExactly(acls, req, p);
    assert WalkStart(acls, req).Keys == acls.Keys;
  }

  lemma OthersUntouched(acls: Acls, req: ShareRequest, p: Path, u: User)
    requires p in acls && u != req.sharee
    ensures Entry(Unshared(Shared(acls, req), req), p, u) == Entry(acls, p, u)
  {
    SharedExactly(acls, req, p, u);
    UnsharedExactly(Shared(acls, req), req, p, u);
  }

  // ----- The inheritance flags -----

  lemma SameList(a: Acl, b: Acl)
    requires forall u: User :: (u in a <==> u in b) && (u in a ==> a[u] == b[u])
    ensures a == b
  {
  }

  /** Nobody but the sharee is listed differently at the path after a share. */
  lemma OthersOnTheList(acls: Acls, req: ShareRequest)
    requires req.path in acls
    ensures req.path in Shared(acls, req)
    ensures Shared(acls, req)[req.path] - {req.sharee} == acls[req.path] - {req.sharee}
  {
    var now := Shared(acls, req);
    forall u: User | u != req.sharee
      ensures (u in now[req.path] <==> u in acls[req.path]) && (u in acls[req.path] ==> now[req.path][u] == acls[req.path][u])
    {
      SharedExactly(acls, req, req.path, u);
      assert Entry(now, req.path, u) == Entry(acls, req.path, u);
    }
    SameList(now[req.path] - {req.sharee}, acls[req.path] - {req.sharee});
  }

  /** Main result: the inheritance flags come back with the access exactly when, among the collections at and
      below the path, none had the flag and nobody else shares it, or all had it and somebody else does. */
  lemma {:induction false} FlagsComeBackExactly(acls: Acls, inherits: set<Path>, collections: set<Path>, req: ShareRequest)
    requires req.path in acls
    ensures req.path in Shared(acls, req)
    ensures UnsharedFlags(Shared(acls, req), SharedFlags(inherits, collections, req), collections, req) == inherits
       <==> req.path in collections ==>
              if forall u :: u in acls[req.path] && u != req.sharee ==> u == req.owner || u == req.proxy || u in req.admins
              then forall q :: q in collections && req.path <= q ==> q !in inherits
              else forall q :: q in collections && req.path <= q ==> q in inherits
  {
    OthersOnTheList(acls, req);
    SetsComeBack(inherits, CollectionsUnder(collections, req.path));
    NobodyElse(acls[req.path], req);
    UnderExactly(inherits, collections, req.path);
  }

  lemma NobodyElse(acl: Acl, req: ShareRequest)
    ensures SharedWithNobody(acl - {req.sharee}, req)
       <==> forall u :: u in acl && u != req.sharee ==> u == req.owner || u == req.proxy || u in req.admins
  {
    var rest := acl - {req.sharee};
    assert forall u: User :: u in rest <==> u in acl && u != req.sharee;
  }

  lemma UnderExactly(inherits: set<Path>, collections: set<Path>, p: Path)
    ensures CollectionsUnder(collections, p) * inherits == {} <==> forall q :: q in collections && p <= q ==> q !in inherits
    ensures CollectionsUnder(collections, p) <= inherits <==> forall q :: q in collections && p <= q ==> q in inherits
  {
    var both := CollectionsUnder(collections, p) * inherits;
    assert forall q :: q in both <==> q in collections && p <= q && q in inherits;
  }

  lemma SetsComeBack(all: set<Path>, some: set<Path>)
    ensures all + some - some == all <==> some * all == {}
    ensures all + some == all <==> some <= all
  {
    if some * all != {} {
      var q :| q in some * all;
      assert q !in all + some - some;
    } else {
      forall q | q in all ensures q in all + some - some {
        assert q !in some * all;
      }
    }
  }

  // ----- Where the promises fail -----

  const HOMES := Layout("zone", ["zone", "home"])

  /** A thing kept outside the homes, which only Ann sees. */
  const SURVEY: Path := ["zone", "projects", "survey", "data"]

  function Survey(): Acls {
    map[[] := map[], SURVEY[..1] := map[], SURVEY[..2] := map["ann" := Own], SURVEY[..3] := map["ann" := Own],
        SURVEY := map["ann" := Own], HOMES.home := map[]]
  }

  /** Sharing it lets Bob into the survey and not into the projects the survey lies in. */
  lemma SharingCanStrand() returns (acls: Acls, req: ShareRequest, structural: set<User>)
    ensures IsTree(acls.Keys) && req.path in acls && req.permission != None && 3 < |req.path|
    ensures Navigable(acls, Roots(req.layout), structural)
    ensures !HomeIsClimbable(acls, req, structural)
    ensures !Navigable(Shared(acls, req), Roots(req.layout), structural)
  {
    acls, structural := Survey(), {"ann"};
    req := ShareRequest("ann", "bob", SURVEY, Read, {}, "proxy", HOMES);
    SurveyIsTree();
    assert req.path[..2][1] == "projects" && |req.layout.TrashBase()| == 3;
    ShareKeepsNavigableExactly(acls, req, structural);
  }

  /** And moving the projects, out of a collection that inherits into one that does not, does not hide what he
      was let into: he is not on their list. */
  lemma StrandedIsNotHidden() returns (acls: Acls, req: ShareRequest, move: MoveContext)
    ensures req.path in Survey() && acls == Shared(Survey(), req)
    ensures MovesSharedThing(acls, move) && Dir(move.source) != Dir(move.destination)
    ensures CanRepair(Moved(acls, move.source, move.destination), move)
    ensures "bob" !in Apart(move) && SURVEY[..3] in acls
    ensures Sees(Repaired(Moved(acls, move.source, move.destination), move, true, false),
                 MovedPath(SURVEY[..3], move.source, move.destination), "bob")
  {
    req := ShareRequest("ann", "bob", SURVEY, Read, {}, "proxy", HOMES);
    acls := Shared(Survey(), req);
    move := MoveContext(SURVEY[..2], PROJECTS_AT_HOME, "ann", {}, "proxy", HOMES);
    SurveyIsTree();
    SurveyShared(req);
    assert SURVEY[..2] <= SURVEY[..3];
    UnlistedKeeps(acls, move, SURVEY[..3], "bob");
  }

  const PROJECTS_AT_HOME: Path := ["zone", "home", "projects"]

  lemma SurveyIsTree()
    ensures IsTree(Survey().Keys) && SURVEY in Survey() && SURVEY[..2] in Survey() && SURVEY[..3] in Survey()
    ensures PROJECTS_AT_HOME !in Survey() && Dir(PROJECTS_AT_HOME) == HOMES.home && HOMES.home in Survey()
    ensures Dir(SURVEY[..2]) != HOMES.home && !(SURVEY[..2] <= PROJECTS_AT_HOME) && |SURVEY[..2]| == 2
    ensures forall r :: r in Roots(HOMES) ==> !(SURVEY[..2] <= r)
  {
    assert SURVEY[..4] == SURVEY && SURVEY[..0] == [] && Dir(HOMES.home) == SURVEY[..1];
    forall i | 0 < i <= 4 ensures Dir(SURVEY[..i]) == SURVEY[..i - 1] { DirOfPart(SURVEY, i); }
    assert SURVEY[1] != HOMES.home[1] && SURVEY[1] != HOMES.TrashBase()[1];
  }

  /** After the share Bob is on the survey's list and not on the projects'. */
  lemma SurveyShared(req: ShareRequest)
    requires req == ShareRequest("ann", "bob", SURVEY, Read, {}, "proxy", HOMES)
    ensures Shared(Survey(), req).Keys == Survey().Keys
    ensures SURVEY[..2] in Survey() && SURVEY[..3] in Survey()
    ensures Sees(Shared(Survey(), req), SURVEY[..3], "bob")
    ensures "bob" !in Shared(Survey(), req)[SURVEY[..2]]
  {
    assert req.Home() == SURVEY[..3] == Dir(SURVEY);
    SharedExactly(Survey(), req, SURVEY[..3], "bob");
    SharedExactly(Survey(), req, SURVEY[..2], "bob");
  }

  const NOTES: Path := ["zone", "home", "ann", "work", "notes"]

  /** Bob may read Ann's work, in which there is nothing he can read. */
  function DeadEnd(): Acls {
    map[[] := map[], NOTES[..1] := map[], NOTES[..2] := map[], NOTES[..3] := map["ann" := Own, "bob" := Read],
        NOTES[..4] := map["ann" := Own, "bob" := Read], NOTES := map["ann" := Own]]
  }

  /** Sharing the notes with him and taking them back takes the read he had as well. */
  lemma UnshareCanTakeMore() returns (acls: Acls, req: ShareRequest, structural: set<User>)
    ensures NewShare(acls, req, structural) && !ReadsLeadSomewhere(acls, req)
    ensures !SameButForHome(acls, Unshared(Shared(acls, req), req), req)
  {
    acls, structural := DeadEnd(), {"ann"};
    req := ShareRequest("ann", "bob", NOTES, Read, {}, "proxy", HOMES);
    var work := NOTES[..4];
    assert NOTES[..5] == NOTES && NOTES[..2] == HOMES.home;
    DirOfPart(NOTES, 5);
    assert |req.layout.TrashBase()| == 3 && req.layout.TrashBase()[1] != "home";
    DeadEndIsNavigable(Roots(req.layout));
    assert req.Home() == NOTES[..3];
    InAncestors(NOTES, req.Stops(), work);
    assert work in req.Between() by {
      forall i | |work| <= i < |NOTES| ensures NOTES[..i] !in req.Stops() {
        assert NOTES[..i] == work;
      }
    }
    forall c | c in acls && IsChild(c, work) ensures !Sees(acls, c, "bob") {
      assert c == NOTES;
    }
    UnshareUndoesShareExactly(acls, req, structural);
  }

  /** A flag Ann set on the notes herself is gone once she has shared them and taken them back. */
  lemma FlagCanBeLost() returns (acls: Acls, inherits: set<Path>, collections: set<Path>, req: ShareRequest)
    ensures req.path in acls && req.path in inherits && inherits <= collections
    ensures req.path in Shared(acls, req)
    ensures req.path !in UnsharedFlags(Shared(acls, req), SharedFlags(inherits, collections, req), collections, req)
  {
    acls, inherits, collections := DeadEnd(), {NOTES}, {NOTES};
    req := ShareRequest("ann", "bob", NOTES, Read, {}, "proxy", HOMES);
    assert NOTES[..5] == NOTES;
    OthersOnTheList(acls, req);
  }

  lemma DirOfPart(p: Path, i: nat)
    requires 0 < i <= |p|
    ensures Dir(p[..i]) == p[..i - 1]
  {
  }

  lemma DeadEndIsNavigable(roots: set<Path>)
    requires roots == Roots(HOMES)
    ensures IsTree(DeadEnd().Keys) && Navigable(DeadEnd(), roots, {"ann"})
  {
    var acls, work, home := DeadEnd(), NOTES[..4], NOTES[..3];
    assert NOTES[..5] == NOTES && NOTES[..0] == [] && NOTES[..2] == HOMES.home;
    forall i | 0 < i <= 5 ensures Dir(NOTES[..i]) == NOTES[..i - 1] { DirOfPart(NOTES, i); }
    assert IsTree(acls.Keys);
    forall p, u | p in acls && u !in {"ann"} && Sees(acls, p, u) && Climbs(p, roots) ensures Sees(acls, Dir(p), u) {
      DeadEndSeen(p, u);
      assert p == work;
    }
    NavigableIffStep(acls, roots, {"ann"});
  }

  lemma DeadEndSeen(p: Path, u: User)
    requires p in DeadEnd() && u != "ann" && Sees(DeadEnd(), p, u)
    ensures u == "bob" && (p == NOTES[..4] || p == NOTES[..3])
  {
  }
}
