/** Something is trashed, planned back and restored: what has become of it. */
module TrashRounds {
  import opened Paths
  import opened Access
  import opened Moves
  import opened Stores
  import opened Permissions
  import opened Navigability
  import opened RepairOutcome
  import opened Trash
  import GoPaths

  /** The restore of what `there` trashed. */
  function Back(there: MoveContext): MoveContext {
    there.(source := there.destination, destination := there.source)
  }

  /** The access lists once something is in the trash, by whether the collection it was in and the trash
      inherit. */
  ghost function Trashed(acls: Acls, there: MoveContext, homeInherits: bool, trashInherits: bool): Acls
    requires CanRepair(Moved(acls, there.source, there.destination), there)
  {
    Repaired(Moved(acls, there.source, there.destination), there, homeInherits, trashInherits)
  }

  /** And once it is back. */
  ghost function Returned(acls: Acls, there: MoveContext, homeInherits: bool, trashInherits: bool): Acls
    requires CanRepair(Moved(acls, there.source, there.destination), there)
    requires CanRepair(Moved(Trashed(acls, there, homeInherits, trashInherits), there.destination, there.source), Back(there))
  {
    Repaired(Moved(Trashed(acls, there, homeInherits, trashInherits), there.destination, there.source), Back(there),
             trashInherits, homeInherits)
  }

  /** Nothing stands in the way of putting back what has just been trashed. */
  lemma NothingInTheWay(nodes: set<Path>, collections: set<Path>, there: MoveContext, trashed: Acls, server: Server)
    requires IsTree(nodes) && [] in nodes && collections <= nodes && Dir(there.source) in collections
    requires CanMove(nodes, collections, there.source, there.destination)
    requires CanMove(MovedSet(nodes, there.source, there.destination), MovedSet(collections, there.source, there.destination),
                     there.destination, there.source)
    requires trashed.Keys == MovedSet(nodes, there.source, there.destination)
    requires Held(trashed, Dir(there.source), there.user) in {Write, Own}
    ensures var back := Back(there); var created := Recreated(trashed, back.destination, back.user);
            var there' := MovedSet(collections, there.source, there.destination);
            && created == {} && trashed.Keys + created == trashed.Keys && there' + created == there'
            && !Visible(trashed, back.destination, back.user)
            && ParentsCanBe(trashed, there', back, server)
            && WithParents(trashed, back, server.given) == trashed
  {
  }

  /** A store as it is right after something is trashed out of one that was as given, whose user can still
      write to the collection it was in. */
  ghost predicate JustTrashed(acls: Acls, collections: set<Path>, inherits: set<Path>, avus: Avus, there: MoveContext,
                              nodes: set<Path>, collections0: set<Path>, inherits0: set<Path>, avus0: Avus)
  {
    && Before(nodes, collections0, inherits0, avus0) && CanMove(nodes, collections0, there.source, there.destination)
    && acls.Keys == MovedSet(nodes, there.source, there.destination)
    && collections == MovedSet(collections0, there.source, there.destination)
    && inherits == MovedSet(inherits0, there.source, there.destination)
    && avus == Marked(MovedAvus(avus0, there.source, there.destination), there.destination, there.source)
    && Held(acls, Dir(there.source), there.user) in {Write, Own}
  }

  /** The restore is one that can be made, and makes no collection. */
  lemma RestoreIsPossible(acls: Acls, collections: set<Path>, inherits: set<Path>, avus: Avus, there: MoveContext, server: Server,
                          nodes: set<Path>, collections0: set<Path>, inherits0: set<Path>, avus0: Avus)
    requires JustTrashed(acls, collections, inherits, avus, there, nodes, collections0, inherits0, avus0)
    ensures var back := Back(there); var created := Recreated(acls, back.destination, back.user);
            && !Visible(acls, back.destination, back.user)
            && ParentsCanBe(acls, collections, back, server)
            && acls.Keys + created == acls.Keys && collections + created == collections
            && CanMove(acls.Keys, collections, back.source, back.destination)
            && WithParents(acls, back, server.given) == acls
  {
    TrashThenRestore(nodes, collections0, inherits0, avus0, there.source, there.destination);
    NothingInTheWay(nodes, collections0, there, acls, server);
  }

  /** And what it leaves is what there was. */
  lemma RestoreUndoes(acls: Acls, collections: set<Path>, inherits: set<Path>, avus: Avus, there: MoveContext,
                      nodes: set<Path>, collections0: set<Path>, inherits0: set<Path>, avus0: Avus)
    requires JustTrashed(acls, collections, inherits, avus, there, nodes, collections0, inherits0, avus0)
    ensures var back := Back(there);
            && MovedSet(acls.Keys, back.source, back.destination) == nodes
            && MovedSet(collections, back.source, back.destination) == collections0
            && MovedSet(inherits, back.source, back.destination) == inherits0
            && SameMetadata(avus0, MovedAvus(avus, back.source, back.destination), nodes, there.source)
  {
    TrashThenRestore(nodes, collections0, inherits0, avus0, there.source, there.destination);
  }

  /** Both, in the restore's own terms. */
  lemma RestoreBringsBack(acls: Acls, collections: set<Path>, inherits: set<Path>, avus: Avus, there: MoveContext, server: Server,
                          nodes: set<Path>, collections0: set<Path>, inherits0: set<Path>, avus0: Avus)
    requires JustTrashed(acls, collections, inherits, avus, there, nodes, collections0, inherits0, avus0)
    ensures var back := Back(there); var created := Recreated(acls, back.destination, back.user);
            && !Visible(acls, back.destination, back.user)
            && ParentsCanBe(acls, collections, back, server)
            && CanMove(acls.Keys + created, collections + created, back.source, back.destination)
            && MovedSet(acls.Keys + created, back.source, back.destination) == nodes
            && MovedSet(collections + created, back.source, back.destination) == collections0
            && MovedSet(inherits, back.source, back.destination) == inherits0
            && SameMetadata(avus0, MovedAvus(avus, back.source, back.destination), nodes, there.source)
            && WithParents(acls, back, server.given) == acls
  {
    RestoreIsPossible(acls, collections, inherits, avus, there, server, nodes, collections0, inherits0, avus0);
    RestoreUndoes(acls, collections, inherits, avus, there, nodes, collections0, inherits0, avus0);
  }

  /** The restore's half. */
  method PutBack(store: Store, there: MoveContext, server: Server,
                 ghost nodes: set<Path>, ghost collections: set<Path>, ghost inherits: set<Path>, ghost avus: Avus)
    returns (ok: bool)
    requires store.Valid()
    requires JustTrashed(store.acls, store.collections, store.inherits, store.avus, there, nodes, collections, inherits, avus)
    modifies store
    ensures store.Valid() && ok
    ensures store.acls.Keys == nodes && store.collections == collections && store.inherits == inherits
    ensures SameMetadata(avus, store.avus, nodes, there.source)
    ensures CanRepair(Moved(old(store.acls), there.destination, there.source), Back(there))
    ensures store.acls == Repaired(Moved(old(store.acls), there.destination, there.source), Back(there),
                                   Dir(there.destination) in inherits, Dir(there.source) in inherits)
  {
    RestoreBringsBack(store.acls, store.collections, store.inherits, store.avus, there, server, nodes, collections, inherits, avus);
    FlagsStay(nodes, inherits, there.source, there.destination);
    ok := RestoreOne(store, Back(there), server);
  }

  /** The other half: trashing, and the plan made from what that left. */
  method TrashAndPlan(store: Store, there: MoveContext) returns (plan: RestorePlan)
    requires store.Valid() && GoPaths.IsPath(there.source)
    requires CanMove(store.acls.Keys, store.collections, there.source, there.destination)
    modifies store
    ensures store.Valid() && CanRepair(Moved(old(store.acls), there.source, there.destination), there)
    ensures store.acls == Trashed(old(store.acls), there, Dir(there.source) in old(store.inherits),
                                  Dir(there.destination) in old(store.inherits))
    ensures plan == RestorePlan(there.source, false) <==> old(Held(store.acls, Dir(there.source), there.user) in {Write, Own})
    ensures plan == RestorePlan(there.source, false) ==>
              JustTrashed(store.acls, store.collections, store.inherits, store.avus, there,
                          old(store.acls.Keys), old(store.collections), old(store.inherits), old(store.avus))
  {
    ghost var acls, collections, inherits, avus := store.acls, store.collections, store.inherits, store.avus;
    StillWritable(acls, there, Dir(there.source) in inherits, Dir(there.destination) in inherits);
    var done := TrashOne(store, there);
    ghost var trashed := store.acls;
    plan := PlanRestore(store, there.layout, there.user, there.destination);
    PlanAfterTrashing(acls.Keys, collections, inherits, avus, there.source, there.destination, trashed, there.layout,
                      there.user, plan);
  }

  /** Trashing leaves the user's hold on the collection it took from alone. */
  lemma StillWritable(acls: Acls, there: MoveContext, homeInherits: bool, trashInherits: bool)
    requires Performs(acls, there)
    ensures CanRepair(Moved(acls, there.source, there.destination), there)
    ensures Held(Trashed(acls, there, homeInherits, trashInherits), Dir(there.source), there.user)
         == Held(acls, Dir(there.source), there.user)
  {
    CollectionKeepsItsAccess(acls, there, homeInherits, trashInherits, there.user);
    var trashed, s := Trashed(acls, there, homeInherits, trashInherits), Dir(there.source);
    assert Entry(trashed, s, there.user) == Entry(acls, s, there.user);
  }

  /** Main result: trashed, planned and restored with nothing in between, a thing comes back to where it was
      exactly when the user could write to the collection it was in when it was trashed, and then every place,
      collection, inheritance flag and other piece of metadata is as it was. */
  method ThereAndBack(store: Store, there: MoveContext, server: Server) returns (plan: RestorePlan, ok: bool)
    requires store.Valid() && GoPaths.IsPath(there.source)
    requires CanMove(store.acls.Keys, store.collections, there.source, there.destination)
    modifies store
    ensures store.Valid() && CanRepair(Moved(old(store.acls), there.source, there.destination), there)
    ensures plan == RestorePlan(there.source, false) <==> old(Held(store.acls, Dir(there.source), there.user) in {Write, Own})
    ensures old(Held(store.acls, Dir(there.source), there.user) in {Write, Own}) ==>
      && ok && store.acls.Keys == old(store.acls.Keys) && store.collections == old(store.collections)
      && store.inherits == old(store.inherits)
      && SameMetadata(old(store.avus), store.avus, old(store.acls.Keys), there.source)
      && IsReturned(old(store.acls), old(store.inherits), there, store.acls)
  {
    ghost var acls, collections, inherits, avus := store.acls, store.collections, store.inherits, store.avus;
    plan := TrashAndPlan(store, there);
    if plan.restored == there.source && !plan.partialRestore {
      ok := PutBack(store, there, server, acls.Keys, collections, inherits, avus);
    } else {
      ok := RestoreOne(store, there.(source := there.destination, destination := plan.restored), server);
    }
  }

  ghost predicate IsReturned(acls: Acls, inherits: set<Path>, there: MoveContext, now: Acls)
    requires CanRepair(Moved(acls, there.source, there.destination), there)
  {
    var homeInherits, trashInherits := Dir(there.source) in inherits, Dir(there.destination) in inherits;
    && CanRepair(Moved(Trashed(acls, there, homeInherits, trashInherits), there.destination, there.source), Back(there))
    && now == Returned(acls, there, homeInherits, trashInherits)
  }

  lemma FlagsStay(nodes: set<Path>, inherits: set<Path>, p: Path, t: Path)
    requires IsTree(nodes) && inherits <= nodes && p in nodes && p != [] && t !in nodes && !(p <= t) && Dir(t) in nodes
    ensures Dir(p) in MovedSet(inherits, p, t) <==> Dir(p) in inherits
    ensures Dir(t) in MovedSet(inherits, p, t) <==> Dir(t) in inherits
  {
    ParentsSurviveMove(nodes, inherits, p, t);
  }

  // ----- The access it comes back with -----

  /** The way back is a move the store performs too. */
  lemma BackPerforms(acls: Acls, there: MoveContext, homeInherits: bool, trashInherits: bool)
    requires Performs(acls, there)
    ensures CanRepair(Moved(acls, there.source, there.destination), there)
    ensures var trashed := Trashed(acls, there, homeInherits, trashInherits);
            && trashed.Keys == MovedSet(acls.Keys, there.source, there.destination) && Performs(trashed, Back(there))
            && CanRepair(Moved(trashed, there.destination, there.source), Back(there))
  {
    var p, t := there.source, there.destination;
    RepairKeepsKeys(acls, there, homeInherits, trashInherits);
    TreeIsPrefixClosed(acls.Keys, p, []);
    TrashedIsTree(acls.Keys, p, t);
    ParentStays(acls.Keys, acls.Keys, p, t);
    MovedIsTree(Trashed(acls, there, homeInherits, trashInherits), Back(there));
  }

  /** Main result: the collection a thing was in gives the structural accounts what it gave, both once the
      thing is in the trash and once it is back, whatever state they were in; and everybody what it gave if it
      inherits and the trash does not lie in it. */
  lemma {:induction false} CollectionKeepsItsAccess(acls: Acls, there: MoveContext, homeInherits: bool, trashInherits: bool, u: User)
    requires Performs(acls, there)
    ensures CanRepair(Moved(acls, there.source, there.destination), there)
    ensures var trashed := Trashed(acls, there, homeInherits, trashInherits);
            CanRepair(Moved(trashed, there.destination, there.source), Back(there))
    ensures var trashed, s := Trashed(acls, there, homeInherits, trashInherits), Dir(there.source);
            u in Apart(there) || (homeInherits && !(s < there.destination)) ==>
              && Entry(trashed, s, u) == Entry(acls, s, u)
              && Entry(Returned(acls, there, homeInherits, trashInherits), s, u) == Entry(acls, s, u)
  {
    BackPerforms(acls, there, homeInherits, trashInherits);
    CollectionStays(acls, there, homeInherits, trashInherits);
    var trashed, s := Trashed(acls, there, homeInherits, trashInherits), Dir(there.source);
    assert Apart(Back(there)) == Apart(there);
    if u in Apart(there) || (homeInherits && !(s < there.destination)) {
      UntouchedOutside(acls, there, homeInherits, trashInherits, s, u);
      UntouchedOutside(trashed, Back(there), trashInherits, homeInherits, s, u);
    }
  }

  lemma CollectionStays(acls: Acls, there: MoveContext, homeInherits: bool, trashInherits: bool)
    requires Performs(acls, there)
    ensures CanRepair(Moved(acls, there.source, there.destination), there)
    ensures var trashed, s := Trashed(acls, there, homeInherits, trashInherits), Dir(there.source);
            s in acls && !(there.source <= s) && s in trashed && !(there.destination <= s)
  {
    BackPerforms(acls, there, homeInherits, trashInherits);
    if there.destination <= Dir(there.source) { TreeIsPrefixClosed(acls.Keys, Dir(there.source), there.destination); }
  }

  /** Where something is at each stage, and that a move alone changes no list. */
  lemma SameOnTheWay(acls: Acls, there: MoveContext, trashed: Acls, q: Path)
    requires Performs(acls, there) && Performs(trashed, Back(there))
    requires trashed.Keys == MovedSet(acls.Keys, there.source, there.destination)
    requires q in acls && there.source <= q
    ensures var p, t := there.source, there.destination; var r := MovedPath(q, p, t);
            && r in Moved(acls, p, t) && t <= r && r in trashed && MovedPath(r, t, p) == q
            && Moved(acls, p, t)[r] == acls[q]
            && q in Moved(trashed, t, p) && Moved(trashed, t, p)[q] == trashed[r]
  {
    var r := MovedPath(q, there.source, there.destination);
    PlaceMoves(acls, there, q);
    assert there.source + r[|there.destination|..] == q;
    PlaceMoves(trashed, Back(there), r);
  }

  /** Whether `u` is among those a repair on the way reaches inside what is trashed: whoever is on the list of
      its top or, if the trash inherits, on the trash's as that is when the ending starts. */
  ghost predicate ReachedInTrash(acls: Acls, there: MoveContext, homeInherits: bool, trashInherits: bool, u: User) {
    || u in Lookup(acls, there.source)
    || (trashInherits && u in Lookup(BeforeEnding(acls, there, homeInherits), Dir(there.destination)))
  }

  /** And, when the collection it was in inherits, on the way back: whoever is on that collection's list. */
  ghost predicate ReachedOnReturn(acls: Acls, there: MoveContext, homeInherits: bool, trashInherits: bool, u: User)
    requires CanRepair(Moved(acls, there.source, there.destination), there)
  {
    u in Lookup(BeforeEnding(Trashed(acls, there, homeInherits, trashInherits), Back(there), trashInherits), Dir(there.source))
  }

  /** What an account not structural comes back with, at one place. */
  ghost predicate ComesBackWith(acls: Acls, there: MoveContext, homeInherits: bool, trashInherits: bool, q: Path, u: User, now: Acls)
    requires CanRepair(Moved(acls, there.source, there.destination), there)
  {
    var reached := ReachedInTrash(acls, there, homeInherits, trashInherits, u);
    if homeInherits then
      Held(now, q, u) == Held(now, Dir(there.source), u) <==>
        reached || !Sees(acls, q, u) || ReachedOnReturn(acls, there, homeInherits, trashInherits, u)
    else if trashInherits then
      !Sees(now, q, u) <==> reached || !Sees(acls, q, u)
    else
      Entry(now, q, u) == Entry(acls, q, u)
  }

  /** Main result: in every state, what comes back has for each account but the structural ones what the
      collection it was in gives, if that inherits, or nothing, if only the trash did, exactly when they saw
      nothing there or a repair on the way reached them; and between collections that do not inherit what it
      had. The structural accounts keep theirs throughout. */
  lemma {:induction false} AccessAfterReturning(acls: Acls, there: MoveContext, homeInherits: bool, trashInherits: bool, q: Path, u: User)
    requires Performs(acls, there) && Dir(there.source) != Dir(there.destination) && q in acls && there.source <= q
    ensures CanRepair(Moved(acls, there.source, there.destination), there)
    ensures CanRepair(Moved(Trashed(acls, there, homeInherits, trashInherits), there.destination, there.source), Back(there))
    ensures var now := Returned(acls, there, homeInherits, trashInherits);
            && q in now
            && (u in Apart(there) ==> Entry(now, q, u) == Entry(acls, q, u))
            && (u !in Apart(there) ==> ComesBackWith(acls, there, homeInherits, trashInherits, q, u, now))
  {
    BackPerforms(acls, there, homeInherits, trashInherits);
    var trashed, r := Trashed(acls, there, homeInherits, trashInherits), MovedPath(q, there.source, there.destination);
    SameOnTheWay(acls, there, trashed, q);
    assert Performs(trashed, Back(there)) && r in trashed;
    WhatItReturnsWith(trashed, Back(there), trashInherits, homeInherits, r, q, u);
    WhatItCameWith(acls, there, homeInherits, trashInherits, r, q, u);
    Combined(acls, there, homeInherits, trashInherits, trashed, Returned(acls, there, homeInherits, trashInherits), r, q, u);
  }

  /** What an account has at one place at the end, by what it had on the way. */
  ghost predicate FromTrash(trashed: Acls, back: MoveContext, trashInherits: bool, homeInherits: bool, r: Path, q: Path, u: User,
                            now: Acls)
  {
    var gone := u in Lookup(trashed, back.source) || !Sees(trashed, r, u);
    && q in now
    && (u in Apart(back) || (!homeInherits && !trashInherits) ==> Entry(now, q, u) == Entry(trashed, r, u))
    && (u !in Apart(back) && homeInherits ==>
          (Held(now, q, u) == Held(now, Dir(back.destination), u)
           <==> gone || u in Lookup(BeforeEnding(trashed, back, trashInherits), Dir(back.destination))))
    && (u !in Apart(back) && !homeInherits && trashInherits ==> (!Sees(now, q, u) <==> gone))
  }

  ghost predicate IntoTrash(acls: Acls, there: MoveContext, homeInherits: bool, trashInherits: bool, r: Path, q: Path, u: User,
                            trashed: Acls)
  {
    && (u in Apart(there) || (!homeInherits && !trashInherits) ==> Entry(trashed, r, u) == Entry(acls, q, u))
    && (u !in Apart(there) && (homeInherits || trashInherits) ==>
          (u in Lookup(trashed, there.destination) || !Sees(trashed, r, u)
           <==> ReachedInTrash(acls, there, homeInherits, trashInherits, u) || !Sees(acls, q, u)))
  }

  lemma Combined(acls: Acls, there: MoveContext, homeInherits: bool, trashInherits: bool, trashed: Acls, now: Acls, r: Path,
                 q: Path, u: User)
    requires CanRepair(Moved(acls, there.source, there.destination), there)
    requires trashed == Trashed(acls, there, homeInherits, trashInherits)
    requires IntoTrash(acls, there, homeInherits, trashInherits, r, q, u, trashed)
    requires FromTrash(trashed, Back(there), trashInherits, homeInherits, r, q, u, now)
    ensures u in Apart(there) ==> Entry(now, q, u) == Entry(acls, q, u)
    ensures u !in Apart(there) ==> ComesBackWith(acls, there, homeInherits, trashInherits, q, u, now)
  {
  }

  /** The way back alone, from whatever was in the trash. */
  lemma WhatItReturnsWith(trashed: Acls, back: MoveContext, trashInherits: bool, homeInherits: bool, r: Path, q: Path, u: User)
    requires Performs(trashed, back) && Dir(back.source) != Dir(back.destination) && r in trashed
    requires q in Moved(trashed, back.source, back.destination) && back.destination <= q
    requires Moved(trashed, back.source, back.destination)[q] == trashed[r]
    ensures CanRepair(Moved(trashed, back.source, back.destination), back)
    ensures FromTrash(trashed, back, trashInherits, homeInherits, r, q, u,
                      Repaired(Moved(trashed, back.source, back.destination), back, trashInherits, homeInherits))
  {
    InsideExactly(trashed, back, trashInherits, homeInherits, q, u);
  }

  /** The way there alone. */
  lemma WhatItCameWith(acls: Acls, there: MoveContext, homeInherits: bool, trashInherits: bool, r: Path, q: Path, u: User)
    requires Performs(acls, there) && Dir(there.source) != Dir(there.destination)
    requires q in acls && r in Moved(acls, there.source, there.destination) && there.destination <= r
    requires Moved(acls, there.source, there.destination)[r] == acls[q]
    ensures CanRepair(Moved(acls, there.source, there.destination), there)
    ensures IntoTrash(acls, there, homeInherits, trashInherits, r, q, u, Trashed(acls, there, homeInherits, trashInherits))
  {
    InsideExactly(acls, there, homeInherits, trashInherits, r, u);
    if u !in Apart(there) {
      TopListExactly(acls, there, homeInherits, trashInherits, u);
    }
  }

  /** And so, when whoever saw anything of it was on the list of its top, for everybody. */
  lemma {:induction false} AccessOfListed(acls: Acls, there: MoveContext, homeInherits: bool, trashInherits: bool, q: Path, u: User)
    requires Performs(acls, there) && Dir(there.source) != Dir(there.destination) && ListedOnTop(acls, there)
    requires q in acls && there.source <= q && u !in Apart(there)
    ensures CanRepair(Moved(acls, there.source, there.destination), there)
    ensures CanRepair(Moved(Trashed(acls, there, homeInherits, trashInherits), there.destination, there.source), Back(there))
    ensures var now := Returned(acls, there, homeInherits, trashInherits);
            && (homeInherits ==> Held(now, q, u) == Held(now, Dir(there.source), u))
            && (!homeInherits && trashInherits ==> !Sees(now, q, u))
            && (!homeInherits && !trashInherits ==> Entry(now, q, u) == Entry(acls, q, u))
  {
    AccessAfterReturning(acls, there, homeInherits, trashInherits, q, u);
    assert Sees(acls, q, u) ==> u in acls[there.source];
  }

  // ----- When the collection it was in is gone -----

  /** Main result: when nothing is left at the collection a thing was in, its restore makes what is missing
      and succeeds exactly when the server lets the user, the nearest place that is there is a collection, and
      nothing the user would be made owner of is refused; and the plan is then for exactly the recorded path. */
  lemma RestoreIntoMissing(acls: Acls, collections: set<Path>, inherits: set<Path>, avus: Avus, t: Path, p: Path,
                           back: MoveContext, plan: RestorePlan, server: Server)
    requires Before(acls.Keys, collections, inherits, avus) && GoPaths.IsPath(p) && p != []
    requires t in acls && t != [] && !(t <= p) && Dir(p) !in acls && back.source == t && back.destination == p
    requires Origin(AvusAt(avus, t)) == GoPaths.Spelled(p) && PlansTo(acls, avus, back.layout, back.user, t, plan)
    ensures plan == RestorePlan(p, false)
    ensures var created := Recreated(acls, p, back.user);
            ParentsCanBe(acls, collections, back, server) && CanMove(acls.Keys + created, collections + created, t, p)
            <==> && server.mayCreate && NearestNode(acls, Dir(p)) in collections
                 && MayHandOver(acls, Dir(p), back.layout.UserHome(back.user), back.user, server)
  {
    assert p !in acls;
    PlanFindsOrigin(acls, avus, back.layout, back.user, t, p, plan);
    NearestIsNearest(acls, Dir(p));
    UptoIsClosed(Dir(p));
    var e := NearestNode(acls, Dir(p));
    assert e in Upto(Dir(p)) by { assert Dir(p)[..|e|] == e; }
    if e in collections {
      forall q | q in Upto(Dir(p)) && q in acls ensures q in collections {
        if q != e { AboveIsCollection(acls.Keys, collections, e, q); }
      }
    }
    assert p !in Upto(Dir(p)) by {
      forall i | 0 <= i <= |Dir(p)| ensures Dir(p)[..i] != p { assert |Dir(p)[..i]| < |p|; }
    }
  }

  lemma {:induction false} AboveIsCollection(nodes: set<Path>, collections: set<Path>, p: Path, q: Path)
    requires IsTree(nodes) && (forall r :: r in nodes && r != [] ==> Dir(r) in collections) && collections <= nodes
    requires p in nodes && q < p
    ensures q in collections
    decreases |p|
  {
    if q != Dir(p) { AboveIsCollection(nodes, collections, Dir(p), q); }
  }
}
