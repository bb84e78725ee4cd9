/** Planning where trashed things go back to, and putting them there. */
module Trash {
  import opened Paths
  import opened Access
  import opened Moves
  import opened Stores
  import opened Permissions
  import GoPaths

  const TRASH_ORIGIN := "ipc-trash-origin"
  const SYSTEM_UNIT := "ipc-system-avu"

  // ----- Numbered names -----

  const DIGITS := "0123456789"

  function Decimal(n: nat): (s: string)
    ensures s != "" && (n < 10 <==> |s| == 1)
  {
    if n < 10 then [DIGITS[n]] else Decimal(n / 10) + [DIGITS[n % 10]]
  }

  lemma DigitsDiffer(a: nat, b: nat)
    requires a < 10 && b < 10 && DIGITS[a] == DIGITS[b]
    ensures a == b
  {
  }

  lemma {:induction false} DecimalIsInjective(a: nat, b: nat)
    requires Decimal(a) == Decimal(b)
    ensures a == b
    decreases a
  {
    var s := Decimal(a);
    if a < 10 {
      DigitsDiffer(a, b);
    } else {
      assert s[|s| - 1] == DIGITS[a % 10] == DIGITS[b % 10];
      DigitsDiffer(a % 10, b % 10);
      assert s[..|s| - 1] == Decimal(a / 10) == Decimal(b / 10);
      DecimalIsInjective(a / 10, b / 10);
    }
  }

  /** A path with a dot and a number after it. */
  function Numbered(p: Path, n: nat): Path {
    if p == [] then ["." + Decimal(n)] else Dir(p) + [p[|p| - 1] + "." + Decimal(n)]
  }

  lemma NumberedIsInjective(p: Path, a: nat, b: nat)
    requires Numbered(p, a) == Numbered(p, b)
    ensures a == b
  {
    var stem := if p == [] then "." else p[|p| - 1] + ".";
    var last := if p == [] then 0 else |p| - 1;
    assert Numbered(p, a)[last] == stem + Decimal(a) && Numbered(p, b)[last] == stem + Decimal(b);
    assert (stem + Decimal(a))[|stem|..] == Decimal(a) && (stem + Decimal(b))[|stem|..] == Decimal(b);
    DecimalIsInjective(a, b);
  }

  /** The path itself if nothing is there, else with the smallest number that makes it free. */
  ghost predicate FirstFree(nodes: set<Path>, p: Path, free: Path) {
    if p !in nodes then free == p
    else exists n: nat :: free == Numbered(p, n) && free !in nodes && TakenBelow(nodes, p, n)
  }

  ghost predicate TakenBelow(nodes: set<Path>, p: Path, n: nat) {
    forall k: nat :: k < n ==> Numbered(p, k) in nodes
  }

  lemma FirstFreeIsUnique(nodes: set<Path>, p: Path, a: Path, b: Path)
    requires FirstFree(nodes, p, a) && FirstFree(nodes, p, b)
    ensures a == b && a !in nodes
  {
    if p in nodes {
      var i: nat :| a == Numbered(p, i) && a !in nodes && TakenBelow(nodes, p, i);
      var k: nat :| b == Numbered(p, k) && b !in nodes && TakenBelow(nodes, p, k);
      assert i < k ==> Numbered(p, i) in nodes;
      assert k < i ==> Numbered(p, k) in nodes;
    }
  }

  /** Tries numbers until nothing is there. It ends because the numbered names all differ, so each one
      that is taken leaves fewer nodes that could take the next. */
  method FirstFreeName(store: Store, p: Path) returns (free: Path)
    ensures FirstFree(store.acls.Keys, p, free)
  {
    if p !in store.acls {
      return p;
    }
    ghost var left := store.acls.Keys;
    var attempt := 0;
    while true
      invariant TakenBelow(store.acls.Keys, p, attempt)
      invariant left <= store.acls.Keys
      invariant forall k: nat :: attempt <= k && Numbered(p, k) in store.acls ==> Numbered(p, k) in left
      decreases |left|
    {
      var candidate := Numbered(p, attempt);
      if candidate !in store.acls {
        return candidate;
      }
      forall k: nat | attempt < k && Numbered(p, k) in store.acls ensures Numbered(p, k) in left - {candidate} {
        if Numbered(p, k) == candidate { NumberedIsInjective(p, k, attempt); }
      }
      assert candidate in left;
      left := left - {candidate};
      attempt := attempt + 1;
    }
  }

  // ----- Planning -----

  datatype RestorePlan = RestorePlan(restored: Path, partialRestore: bool)

  /** The first recorded origin, or "" for none. */
  function Origin(avus: seq<Avu>): string {
    if avus == [] then "" else if avus[0].attribute == TRASH_ORIGIN then avus[0].value else Origin(avus[1..])
  }

  method TrashOrigin(store: Store, p: Path) returns (origin: string)
    ensures origin == Origin(AvusAt(store.avus, p))
  {
    var avus := AvusAt(store.avus, p);
    assert avus[0..] == avus;
    for i := 0 to |avus|
      invariant Origin(avus) == Origin(avus[i..])
    {
      assert avus[i..][0] == avus[i] && avus[i..][1..] == avus[i + 1..];
      if avus[i].attribute == TRASH_ORIGIN {
        return avus[i].value;
      }
    }
    return "";
  }

  /** The components of a recorded path. */
  function PathOf(s: string): Path { GoPaths.Resolve(GoPaths.Split(s), true, []) }

  lemma PathOfSpelled(p: Path)
    requires GoPaths.IsPath(p)
    ensures PathOf(GoPaths.Spelled(p)) == p
  {
    GoPaths.SpelledParts(p);
    GoPaths.ResolveAppends([""], GoPaths.Pieces(p), true, []);
    GoPaths.ResolveOne("", true, []);
    GoPaths.ResolvePieces(p);
  }

  predicate ParentUnwriteable(acls: Acls, parent: Path, user: User) {
    parent in acls && !Permits(Held(acls, parent, user), Write)
  }

  function BaseUnder(home: Path, p: Path): Path { if p == [] then home else home + [p[|p| - 1]] }

  predicate GoesHome(acls: Acls, avus: Avus, user: User, p: Path) {
    var origin := Origin(AvusAt(avus, p));
    origin == "" || ParentUnwriteable(acls, Dir(PathOf(origin)), user)
  }

  ghost predicate PlansTo(acls: Acls, avus: Avus, layout: Layout, user: User, p: Path, plan: RestorePlan) {
    && plan.partialRestore == GoesHome(acls, avus, user, p)
    && FirstFree(acls.Keys, if plan.partialRestore then BaseUnder(layout.UserHome(user), p)
                            else PathOf(Origin(AvusAt(avus, p))), plan.restored)
  }

  /** Back to the recorded origin, or to the user's home when there is none or its collection is there and
      closed to them; with a number when the name is taken. */
  method PlanRestore(store: Store, layout: Layout, user: User, p: Path) returns (plan: RestorePlan)
    ensures PlansTo(store.acls, store.avus, layout, user, p, plan)
  {
    var origin := TrashOrigin(store, p);
    var toHome := origin == "";
    if !toHome {
      var parent := Dir(PathOf(origin));
      if parent in store.acls {
        var held := store.PermissionOf(parent, user);
        toHome := !Permits(held, Write);
      }
    }
    var target := if toHome then BaseUnder(layout.UserHome(user), p) else PathOf(origin);
    var free := FirstFreeName(store, target);
    return RestorePlan(free, toHome);
  }

  // ----- Trashing -----

  lemma {:induction false} OriginReplaced(avus: seq<Avu>, value: string)
    ensures Origin(Without(avus, TRASH_ORIGIN) + [Avu(TRASH_ORIGIN, value, SYSTEM_UNIT)]) == value
  {
    var last := [Avu(TRASH_ORIGIN, value, SYSTEM_UNIT)];
    if avus == [] {
      assert Without(avus, TRASH_ORIGIN) + last == last;
    } else {
      OriginReplaced(avus[1..], value);
      var rest := Without(avus[1..], TRASH_ORIGIN);
      if avus[0].attribute == TRASH_ORIGIN {
        assert Without(avus, TRASH_ORIGIN) + last == rest + last;
      } else {
        var all := Without(avus, TRASH_ORIGIN) + last;
        assert all[0] == avus[0] && all[1..] == rest + last;
      }
    }
  }

  function Marked(avus: Avus, p: Path, origin: Path): Avus {
    avus[p := Without(AvusAt(avus, p), TRASH_ORIGIN) + [Avu(TRASH_ORIGIN, GoPaths.Spelled(origin), SYSTEM_UNIT)]]
  }

  /** Moves one thing to its place in the trash and records where it was. */
  method TrashOne(store: Store, move: MoveContext) returns (ok: bool)
    requires store.Valid()
    modifies store
    ensures store.Valid()
    ensures ok <==> old(CanMove(store.acls.Keys, store.collections, move.source, move.destination))
    ensures !ok ==> store.acls == old(store.acls) && store.avus == old(store.avus)
    ensures !ok ==> store.inherits == old(store.inherits) && store.collections == old(store.collections)
    ensures ok ==>
      && store.acls.Keys == MovedSet(old(store.acls.Keys), move.source, move.destination)
      && store.inherits == MovedSet(old(store.inherits), move.source, move.destination)
      && store.collections == MovedSet(old(store.collections), move.source, move.destination)
      && store.avus == Marked(MovedAvus(old(store.avus), move.source, move.destination), move.destination, move.source)
    ensures ok ==> CanRepair(old(Moved(store.acls, move.source, move.destination)), move)
    ensures ok ==> store.acls == old(Repaired(Moved(store.acls, move.source, move.destination), move,
                                              Dir(move.source) in store.inherits, Dir(move.destination) in store.inherits))
  {
    ghost var nodes := store.acls.Keys;
    ok := MoveOne(store, move);
    if ok {
      ArrivesAtDestination(nodes, move.source, move.destination);
      ok := store.SetAVU(move.destination, Avu(TRASH_ORIGIN, GoPaths.Spelled(move.source), SYSTEM_UNIT));
    }
  }

  lemma ArrivesAtDestination(nodes: set<Path>, from: Path, to: Path)
    requires from in nodes
    ensures to in MovedSet(nodes, from, to)
  {
    assert MovedPath(from, from, to) == to;
  }

  // ----- There and back -----

  lemma BackAgainAt(nodes: set<Path>, from: Path, to: Path, p: Path)
    requires IsTree(nodes) && from in nodes && to !in nodes && !(from <= to) && p in nodes
    ensures MovedPath(MovedPath(p, from, to), to, from) == p
  {
    if !(from <= p) && to <= p { TreeIsPrefixClosed(nodes, p, to); }
  }

  /** Moving there and back puts every place where it was. */
  lemma BackAgain(nodes: set<Path>, some: set<Path>, from: Path, to: Path)
    requires IsTree(nodes) && some <= nodes && from in nodes && to !in nodes && !(from <= to)
    ensures MovedSet(MovedSet(some, from, to), to, from) == some
  {
    var there := MovedSet(some, from, to);
    forall p | p in some ensures p in MovedSet(there, to, from) {
      BackAgainAt(nodes, from, to, p);
      assert MovedPath(p, from, to) in there;
    }
    forall r | r in MovedSet(there, to, from) ensures r in some {
      var q :| q in there && r == MovedPath(q, to, from);
      var p :| p in some && q == MovedPath(p, from, to);
      BackAgainAt(nodes, from, to, p);
    }
  }

  lemma MovedAvusAt(nodes: set<Path>, avus: Avus, from: Path, to: Path, p: Path)
    requires IsTree(nodes) && avus.Keys <= nodes && from in nodes && to !in nodes && !(from <= to)
    requires p in nodes
    ensures MovedPath(p, from, to) in MovedAvus(avus, from, to) <==> p in avus
    ensures AvusAt(MovedAvus(avus, from, to), MovedPath(p, from, to)) == AvusAt(avus, p)
  {
    var q := MovedPath(p, from, to);
    MovedNode(nodes, avus.Keys, from, to, q);
    if !(from <= p) && to <= p { TreeIsPrefixClosed(nodes, p, to); }
    if from <= p { assert from + q[|to|..] == p; }
  }

  /** A path that is free, planned from its record, comes back as itself; and the plan can be carried
      out without meeting anything. */
  lemma PlanFindsOrigin(acls: Acls, avus: Avus, layout: Layout, user: User, t: Path, p: Path, plan: RestorePlan)
    requires GoPaths.IsPath(p) && Origin(AvusAt(avus, t)) == GoPaths.Spelled(p)
    requires PlansTo(acls, avus, layout, user, t, plan)
    ensures !plan.partialRestore <==> !ParentUnwriteable(acls, Dir(p), user)
    ensures plan == RestorePlan(p, false) <==> p !in acls && !ParentUnwriteable(acls, Dir(p), user)
    ensures plan.restored !in acls
  {
    PathOfSpelled(p);
    var target := if plan.partialRestore then BaseUnder(layout.UserHome(user), t) else p;
    FirstFreeIsUnique(acls.Keys, target, plan.restored, plan.restored);
  }

  // ----- Recreating what is missing above -----

  /** What the server decides: the access a new collection starts with, whether the user may make one where
      it is missing, and the places they may not be made owner of. */
  datatype Server = Server(given: Acl, mayCreate: bool, refused: set<Path>)

  predicate Visible(acls: Acls, p: Path, user: User) { p in acls && user in acls[p] }

  datatype Found = Nowhere | At(path: Path)

  /** The nearest place above `p` the user can see, if any. */
  function FirstVisibleAbove(acls: Acls, p: Path, user: User): Found
    decreases |p|
  {
    if p == [] then Nowhere
    else if Visible(acls, Dir(p), user) then At(Dir(p))
    else FirstVisibleAbove(acls, Dir(p), user)
  }

  method FirstExtantAncestor(store: Store, p: Path, user: User) returns (found: Found)
    ensures found == FirstVisibleAbove(store.acls, p, user)
  {
    var current := p;
    while current != []
      invariant FirstVisibleAbove(store.acls, current, user) == FirstVisibleAbove(store.acls, p, user)
      decreases |current|
    {
      current := Dir(current);
      if current in store.acls && user in store.acls[current] {
        return At(current);
      }
    }
    return Nowhere;
  }

  /** From `p` upwards, stopping before `extant`, before `home`, or after the root. */
  function Handed(p: Path, extant: Found, home: Path): set<Path>
    decreases |p|
  {
    if At(p) == extant || p == home then {}
    else {p} + if p == [] then {} else Handed(Dir(p), extant, home)
  }

  function Given(acls: Acls, places: set<Path>, user: User): Acls {
    map q | q in acls :: if q in places then acls[q][user := Own] else acls[q]
  }

  lemma {:induction false} HandedIsUpto(p: Path, extant: Found, home: Path)
    ensures Handed(p, extant, home) <= Upto(p)
  {
    UptoIsClosed(p);
    if At(p) != extant && p != home && p != [] {
      HandedIsUpto(Dir(p), extant, home);
      UptoOfDir(p);
    }
  }

  lemma PartOfDir(p: Path, i: nat)
    requires i < |p|
    ensures Dir(p)[..i] == p[..i]
  {
    assert |Dir(p)[..i]| == |p[..i]|;
    forall k | 0 <= k < i ensures Dir(p)[..i][k] == p[..i][k] {
    }
  }

  lemma UptoOfDir(p: Path)
    requires p != []
    ensures Upto(p) == Upto(Dir(p)) + {p}
  {
    forall q | q in Upto(p) ensures q in Upto(Dir(p)) + {p} {
      var i :| 0 <= i <= |p| && q == p[..i];
      if i < |p| { PartOfDir(p, i); } else { assert p[..i] == p; }
    }
    forall q | q in Upto(Dir(p)) ensures q in Upto(p) {
      var i :| 0 <= i <= |Dir(p)| && q == Dir(p)[..i];
      PartOfDir(p, i);
    }
    assert p[..|p|] == p;
  }

  /** What the walk changes at the next place, and whether that is blocked. */
  lemma GivenOneMore(acls: Acls, places: set<Path>, p: Path, user: User)
    requires p in acls
    ensures Given(Given(acls, places, user), {p}, user) == Given(acls, places + {p}, user)
    ensures Held(Given(acls, places, user), p, user) == if p in places then Own else Held(acls, p, user)
  {
    SameAcls(Given(Given(acls, places, user), {p}, user), Given(acls, places + {p}, user));
  }

  lemma GivenOne(acls: Acls, p: Path, user: User)
    requires p in acls
    ensures Given(acls, {p}, user) == if Held(acls, p, user) == Own then acls else SetPerm(acls, p, user, Own, false)
  {
    SameAcls(Given(acls, {p}, user), if Held(acls, p, user) == Own then acls else SetPerm(acls, p, user, Own, false));
  }

  /** The access lists once everything missing up to `p` is there and the walk up has handed it over. */
  function HandedOver(acls: Acls, p: Path, home: Path, user: User, given: Acl): Acls {
    Given(WithNew(acls, Upto(p), given), Handed(p, FirstVisibleAbove(acls, p, user), home), user)
  }

  /** Places the server refuses the user, that they do not own already. */
  function Blocked(acls: Acls, user: User, refused: set<Path>): set<Path> {
    set q | q in refused && Held(acls, q, user) != Own
  }

  /** As far as the walk up gets when it ends at the first blocked place. */
  function HandedUntil(p: Path, extant: Found, home: Path, blocked: set<Path>): set<Path>
    decreases |p|
  {
    if At(p) == extant || p == home || p in blocked then {}
    else {p} + if p == [] then {} else HandedUntil(Dir(p), extant, home, blocked)
  }

  /** Nothing the walk up comes to is blocked, once everything up to `p` is there. */
  predicate MayHandOver(acls: Acls, p: Path, home: Path, user: User, server: Server) {
    Handed(p, FirstVisibleAbove(acls, p, user), home) !! Blocked(WithNew(acls, Upto(p), server.given), user, server.refused)
  }

  /** The access lists if something was. */
  function HandedPartly(acls: Acls, p: Path, home: Path, user: User, server: Server): Acls {
    var made := WithNew(acls, Upto(p), server.given);
    Given(made, HandedUntil(p, FirstVisibleAbove(acls, p, user), home, Blocked(made, user, server.refused)), user)
  }

  /** Recreates the collections missing above a destination and hands over the new ones. If the server refuses
      one of those the user does not own, what was made and handed over so far stays. */
  method RestoreParents(store: Store, home: Path, user: User, destination: Path, server: Server)
    returns (ok: bool)
    requires store.Valid()
    modifies store`acls, store`collections
    ensures store.Valid()
    ensures var parent, acls := Dir(destination), old(store.acls);
            var seen, makes := Visible(acls, parent, user), server.mayCreate && Upto(parent) * acls.Keys <= old(store.collections);
            && (ok <==> seen || (makes && MayHandOver(acls, parent, home, user, server)))
            && (seen || !makes ==> store.acls == acls && store.collections == old(store.collections))
            && (!seen && makes ==>
                  && store.collections == old(store.collections) + Upto(parent)
                  && store.acls == if ok then HandedOver(acls, parent, home, user, server.given)
                                   else HandedPartly(acls, parent, home, user, server))
  {
    var parent := Dir(destination);
    if parent in store.acls && user in store.acls[parent] {
      return true;
    }
    var extant := FirstExtantAncestor(store, parent, user);
    ok := store.MakeDir(parent, server.given, server.mayCreate);
    if !ok {
      return;
    }
    UptoIsClosed(parent);
    ok := HandOver(store, parent, extant, home, user, server.refused);
  }

  /** Walks up from `parent` giving the user each collection they do not own already, until the server
      refuses one. */
  method HandOver(store: Store, parent: Path, extant: Found, home: Path, user: User, refused: set<Path>)
    returns (ok: bool)
    requires store.Valid() && Upto(parent) <= store.acls.Keys
    modifies store`acls
    ensures store.Valid()
    ensures ok <==> Handed(parent, extant, home) !! Blocked(old(store.acls), user, refused)
    ensures ok ==> store.acls == Given(old(store.acls), Handed(parent, extant, home), user)
    ensures !ok ==> store.acls == Given(old(store.acls), HandedUntil(parent, extant, home, Blocked(old(store.acls), user, refused)), user)
  {
    ghost var start, done, blocked := store.acls, {}, Blocked(store.acls, user, refused);
    var current, rooted := parent, false;
    SameAcls(Given(start, {}, user), start);
    UptoIsClosed(parent);
    while !rooted && At(current) != extant && current != home
      invariant store.acls == Given(start, done, user)
      invariant current in Upto(parent) && Walked(parent, extant, home, blocked, done, current, rooted)
      decreases if rooted then 0 else 1, |current|
    {
      WalkStep(parent, extant, home, blocked, done, current);
      GivenOneMore(start, done, current, user);
      ok := TakeOver(store, current, user, refused);
      if !ok {
        return;
      }
      done := done + {current};
      if current == [] {
        rooted := true;
      } else {
        current := Dir(current);
      }
    }
    return true;
  }

  /** How far the walk has come: `done`, none of it blocked, and the rest from `current`. */
  ghost predicate Walked(parent: Path, extant: Found, home: Path, blocked: set<Path>, done: set<Path>, current: Path, rooted: bool) {
    && done !! blocked
    && Handed(parent, extant, home) == done + (if rooted then {} else Handed(current, extant, home))
    && HandedUntil(parent, extant, home, blocked)
       == done + (if rooted then {} else HandedUntil(current, extant, home, blocked))
  }

  /** One step of it. */
  lemma WalkStep(parent: Path, extant: Found, home: Path, blocked: set<Path>, done: set<Path>, p: Path)
    requires Walked(parent, extant, home, blocked, done, p, false) && At(p) != extant && p != home
    ensures p in blocked ==> p in Handed(parent, extant, home) && HandedUntil(parent, extant, home, blocked) == done
    ensures p !in blocked ==> Walked(parent, extant, home, blocked, done + {p}, Dir(p), p == [])
  {
  }

  /** Makes the user owner of one collection, unless they are or the server refuses. */
  method TakeOver(store: Store, p: Path, user: User, refused: set<Path>) returns (ok: bool)
    requires p in store.acls
    modifies store`acls
    ensures ok <==> !(p in refused && old(Held(store.acls, p, user)) != Own)
    ensures store.acls == if ok then Given(old(store.acls), {p}, user) else old(store.acls)
  {
    GivenOne(store.acls, p, user);
    var level := store.PermissionOf(p, user);
    if level == Own {
      return true;
    }
    if p in refused {
      return false;
    }
    ok := store.SetPermission(p, user, Own, false);
  }

  /** Main result: recreating what a user cannot see up to `p` changes no access on anything that was there
      before exactly when the nearest place that was there is visible to them, or has their home at it or
      between it and `p`. */
  lemma OnlyCreatedAreHandedOver(acls: Acls, p: Path, home: Path, user: User, given: Acl)
    requires IsTree(acls.Keys) && [] in acls && !Visible(acls, p, user)
    ensures (forall q :: q in acls ==> HandedOver(acls, p, home, user, given)[q] == acls[q])
       <==> (Visible(acls, NearestNode(acls, p), user) || (NearestNode(acls, p) <= home <= p))
  {
    var e, extant := NearestNode(acls, p), FirstVisibleAbove(acls, p, user);
    var handed := Handed(p, extant, home);
    var after := HandedOver(acls, p, home, user, given);
    NearestIsNearest(acls, p);
    HandedMeets(acls, p, home, user);
    if e in handed {
      assert e in after && after[e] == acls[e][user := Own];
      assert after[e] != acls[e];
    }
    forall q | q in acls && !(e in handed) ensures after[q] == acls[q] {
      if q in handed { HandedReachesDown(acls, p, extant, home, q); }
    }
  }

  const PROJECTS: Path := ["zone", "home", "bob", "projects"]

  /** Only the root and Bob's home can be seen by Ann; his projects are there, and she cannot see them. */
  function BobsTree(): Acls {
    map[[] := map["ann" := Read], PROJECTS[..1] := map["ann" := Read], PROJECTS[..2] := map["ann" := Read],
        PROJECTS[..3] := map["ann" := Read, "bob" := Own], PROJECTS := map["bob" := Own]]
  }

  /** What was there can be handed over, if the server lets Ann take it: Bob's projects, if she restores to
      them or to something missing in them. */
  lemma ExistingIsHandedOver(given: Acl)
    ensures IsTree(BobsTree().Keys) && !Visible(BobsTree(), PROJECTS, "ann")
    ensures HandedOver(BobsTree(), PROJECTS, ["zone", "home", "ann"], "ann", given)[PROJECTS]["ann"] == Own
    ensures PROJECTS + ["old"] !in BobsTree()
    ensures HandedOver(BobsTree(), PROJECTS + ["old"], ["zone", "home", "ann"], "ann", given)[PROJECTS]["ann"] == Own
  {
    BobsTreeIsTree();
    var acls, home, below := BobsTree(), ["zone", "home", "ann"], PROJECTS + ["old"];
    assert FirstVisibleAbove(acls, PROJECTS, "ann") == At(PROJECTS[..3]) == FirstVisibleAbove(acls, below, "ann");
    assert PROJECTS in Handed(PROJECTS, At(PROJECTS[..3]), home);
    assert PROJECTS in Handed(below, At(PROJECTS[..3]), home);
  }

  lemma BobsTreeIsTree()
    ensures IsTree(BobsTree().Keys) && PROJECTS + ["old"] !in BobsTree()
    ensures Dir(PROJECTS) == PROJECTS[..3] && Dir(PROJECTS + ["old"]) == PROJECTS
    ensures Visible(BobsTree(), PROJECTS[..3], "ann") && !Visible(BobsTree(), PROJECTS, "ann")
  {
    assert Dir(PROJECTS) == PROJECTS[..3] && Dir(PROJECTS[..3]) == PROJECTS[..2] && Dir(PROJECTS[..2]) == PROJECTS[..1];
    assert Dir(PROJECTS[..1]) == [] && PROJECTS[..4] == PROJECTS;
  }

  /** The nearest place above `p` that is there. */
  function NearestNode(acls: Acls, p: Path): Path
    decreases |p|
  {
    if p == [] || p in acls then p else NearestNode(acls, Dir(p))
  }

  lemma {:induction false} NearestIsNearest(acls: Acls, p: Path)
    requires [] in acls
    ensures NearestNode(acls, p) in acls && NearestNode(acls, p) <= p
    ensures forall q :: q in Upto(p) && q in acls ==> q <= NearestNode(acls, p)
    decreases |p|
  {
    if p != [] && p !in acls {
      NearestIsNearest(acls, Dir(p));
      UptoOfDir(p);
    } else {
      forall q | q in Upto(p) ensures q <= p {
        var i :| 0 <= i <= |p| && q == p[..i];
      }
    }
  }

  /** If anything that was there is handed over, so is the nearest such thing. */
  lemma {:induction false} HandedReachesDown(acls: Acls, p: Path, extant: Found, home: Path, q: Path)
    requires [] in acls && q in acls && q in Handed(p, extant, home)
    ensures NearestNode(acls, p) in Handed(p, extant, home)
    decreases |p|
  {
    if p !in acls && p != [] {
      HandedReachesDown(acls, Dir(p), extant, home, q);
    }
  }

  lemma {:induction false} ExtantIsAbove(acls: Acls, p: Path, user: User)
    ensures FirstVisibleAbove(acls, p, user).At? ==> |FirstVisibleAbove(acls, p, user).path| < |p|
    decreases |p|
  {
    if p != [] && !Visible(acls, Dir(p), user) { ExtantIsAbove(acls, Dir(p), user); }
  }

  lemma BelowOrAt(base: Path, p: Path)
    requires p != []
    ensures base <= p <==> base == p || base <= Dir(p)
  {
  }

  lemma {:induction false} HandedMeets(acls: Acls, p: Path, home: Path, user: User)
    requires [] in acls && !Visible(acls, p, user)
    ensures NearestNode(acls, p) in Handed(p, FirstVisibleAbove(acls, p, user), home)
       <==> !Visible(acls, NearestNode(acls, p), user) && !(NearestNode(acls, p) <= home <= p)
    decreases |p|
  {
    ExtantIsAbove(acls, p, user);
    if p in acls {
      assert p <= home <= p <==> p == home;
    } else {
      HandedMeetsAbove(acls, p, home, user);
    }
  }

  lemma {:induction false} HandedMeetsAbove(acls: Acls, p: Path, home: Path, user: User)
    requires [] in acls && p !in acls
    ensures NearestNode(acls, p) in Handed(p, FirstVisibleAbove(acls, p, user), home)
       <==> !Visible(acls, NearestNode(acls, p), user) && !(NearestNode(acls, p) <= home <= p)
    decreases |p|, 0
  {
    var d := Dir(p);
    NearestIsNearest(acls, p);
    var e, extant := NearestNode(acls, p), FirstVisibleAbove(acls, p, user);
    assert e == NearestNode(acls, d) && e != p;
    ExtantIsAbove(acls, p, user);
    HandedNext(acls, p, d, extant, home);
    BelowOrAt(home, p);
    if d in acls {
      assert e == d;
      ExtantIsAbove(acls, d, user);
      assert e <= home <= p <==> home == d || home == p;
    } else {
      HandedMeetsAbove(acls, d, home, user);
    }
  }

  lemma HandedNext(acls: Acls, p: Path, d: Path, extant: Found, home: Path)
    requires p !in acls && p != [] && d == Dir(p)
    ensures At(p) != extant && p != home ==> Handed(p, extant, home) == {p} + Handed(d, extant, home)
  {
  }

  // ----- Restoring -----

  /** The collections restoring makes, when any are missing from the user's view. */
  function Recreated(acls: Acls, destination: Path, user: User): set<Path> {
    if Visible(acls, Dir(destination), user) then {} else Upto(Dir(destination))
  }

  /** The access lists once there is a collection to restore into. */
  function WithParents(acls: Acls, move: MoveContext, given: Acl): Acls {
    if Visible(acls, Dir(move.destination), move.user) then acls
    else HandedOver(acls, Dir(move.destination), move.layout.UserHome(move.user), move.user, given)
  }

  lemma WithParentsKeys(acls: Acls, move: MoveContext, given: Acl)
    ensures WithParents(acls, move, given).Keys == acls.Keys + Recreated(acls, move.destination, move.user)
  {
  }

  /** Whether there is, or can be made, a collection to restore into. */
  predicate ParentsCanBe(acls: Acls, collections: set<Path>, move: MoveContext, server: Server) {
    var parent := Dir(move.destination);
    || Visible(acls, parent, move.user)
    || (server.mayCreate && Upto(parent) * acls.Keys <= collections
        && MayHandOver(acls, parent, move.layout.UserHome(move.user), move.user, server))
  }

  /** Takes one thing out of the trash, never onto anything that is there: exactly when the user sees
      nothing at its destination, the collection it goes to is there or can be made and handed over, and the
      move is one the store performs. */
  method RestoreOne(store: Store, move: MoveContext, server: Server) returns (ok: bool)
    requires store.Valid()
    modifies store
    ensures store.Valid()
    ensures ok ==> move.destination !in old(store.acls)
    ensures var created := Recreated(old(store.acls), move.destination, move.user);
            ok <==> && !Visible(old(store.acls), move.destination, move.user)
                    && ParentsCanBe(old(store.acls), old(store.collections), move, server)
                    && CanMove(old(store.acls.Keys) + created, old(store.collections) + created,
                               move.source, move.destination)
    ensures ok ==>
      var created := Recreated(old(store.acls), move.destination, move.user);
      && store.acls.Keys == MovedSet(old(store.acls.Keys) + created, move.source, move.destination)
      && store.collections == MovedSet(old(store.collections) + created, move.source, move.destination)
      && store.inherits == MovedSet(old(store.inherits), move.source, move.destination)
      && store.avus == MovedAvus(old(store.avus), move.source, move.destination)
    ensures ok ==> CanRepair(Moved(WithParents(old(store.acls), move, server.given), move.source, move.destination), move)
    ensures ok ==>
      store.acls == Repaired(Moved(WithParents(old(store.acls), move, server.given), move.source, move.destination), move,
                             Dir(move.source) in old(store.inherits), Dir(move.destination) in old(store.inherits))
    ensures Visible(old(store.acls), move.destination, move.user) ==> store.acls == old(store.acls)
  {
    if move.destination in store.acls && move.user in store.acls[move.destination] {
      return false;
    }
    ghost var was := store.acls;
    ok := RestoreParents(store, move.layout.UserHome(move.user), move.user, move.destination, server);
    if !ok {
      return;
    }
    WithParentsKeys(was, move, server.given);
    assert store.acls == WithParents(was, move, server.given);
    ok := MoveOne(store, move);
  }

  // ----- Trashing and restoring -----

  lemma MarkedAt(avus: Avus, nodes: set<Path>, p: Path, t: Path, q: Path)
    requires IsTree(nodes) && [] in nodes && avus.Keys <= nodes && CanMove(nodes, nodes, p, t) && q in nodes
    ensures AvusAt(MovedAvus(Marked(MovedAvus(avus, p, t), t, p), t, p), q)
         == if q == p then Without(AvusAt(avus, p), TRASH_ORIGIN)
                           + [Avu(TRASH_ORIGIN, GoPaths.Spelled(p), SYSTEM_UNIT)]
            else AvusAt(avus, q)
  {
    var there := MovedSet(nodes, p, t);
    var moved := MovedAvus(avus, p, t);
    var marked := Marked(moved, t, p);
    var r := MovedPath(q, p, t);
    BackAgainAt(nodes, p, t, q);
    BackAgainAt(nodes, p, t, p);
    MovedAvusAt(nodes, avus, p, t, q);
    MovedAvusAt(nodes, avus, p, t, p);
    assert MovedPath(p, p, t) == t;
    TrashedIsTree(nodes, p, t);
    MovedKeys(avus, nodes, p, t);
    MovedAvusAt(there, marked, t, p, r);
    assert r == t <==> q == p;
  }

  lemma MovedKeys(avus: Avus, nodes: set<Path>, p: Path, t: Path)
    requires avus.Keys <= nodes && p in nodes
    ensures Marked(MovedAvus(avus, p, t), t, p).Keys <= MovedSet(nodes, p, t)
  {
    assert MovedPath(p, p, t) == t;
  }

  lemma TrashedIsTree(nodes: set<Path>, p: Path, t: Path)
    requires IsTree(nodes) && [] in nodes && CanMove(nodes, nodes, p, t)
    ensures t in MovedSet(nodes, p, t) && p !in MovedSet(nodes, p, t) && !(t <= p)
    ensures IsTree(MovedSet(nodes, p, t))
  {
    assert MovedPath(p, p, t) == t;
    if t <= p { TreeIsPrefixClosed(nodes, p, t); }
    MovedNode(nodes, nodes, p, t, p);
    MoveKeepsTree(nodes, nodes, p, t);
  }

  /** The store before something is trashed: its tree, what is a collection or inherits, its metadata. */
  ghost predicate Before(nodes: set<Path>, collections: set<Path>, inherits: set<Path>, avus: Avus) {
    && [] in collections && IsTree(nodes) && (forall q :: q in nodes && q != [] ==> Dir(q) in collections)
    && inherits <= collections <= nodes && avus.Keys <= nodes
  }

  /** Metadata everywhere but at one place is as it was. */
  ghost predicate SameMetadata(before: Avus, now: Avus, nodes: set<Path>, except: Path) {
    forall q :: q in nodes && q != except ==> AvusAt(now, q) == AvusAt(before, q)
  }

  /** Main result: moving `p` to the trash and back is possible, and leaves every place, collection,
      inheritance flag and piece of metadata as it was, but for the recorded origin. */
  lemma {:induction false} TrashThenRestore(nodes: set<Path>, collections: set<Path>, inherits: set<Path>, avus: Avus, p: Path, t: Path)
    requires Before(nodes, collections, inherits, avus) && CanMove(nodes, collections, p, t)
    ensures CanMove(MovedSet(nodes, p, t), MovedSet(collections, p, t), t, p)
    ensures MovedSet(MovedSet(nodes, p, t), t, p) == nodes
    ensures MovedSet(MovedSet(collections, p, t), t, p) == collections
    ensures MovedSet(MovedSet(inherits, p, t), t, p) == inherits
    ensures SameMetadata(avus, MovedAvus(Marked(MovedAvus(avus, p, t), t, p), t, p), nodes, p)
  {
    CanMoveBack(nodes, collections, p, t);
    BackAgain(nodes, nodes, p, t);
    BackAgain(nodes, collections, p, t);
    BackAgain(nodes, inherits, p, t);
    RestoredMetadata(nodes, avus, p, t);
  }

  lemma CanMoveBack(nodes: set<Path>, collections: set<Path>, p: Path, t: Path)
    requires IsTree(nodes) && [] in nodes && collections <= nodes && Dir(p) in collections && CanMove(nodes, collections, p, t)
    ensures CanMove(MovedSet(nodes, p, t), MovedSet(collections, p, t), t, p)
  {
    TrashedIsTree(nodes, p, t);
    ParentStays(nodes, collections, p, t);
  }

  lemma RestoredMetadata(nodes: set<Path>, avus: Avus, p: Path, t: Path)
    requires IsTree(nodes) && [] in nodes && avus.Keys <= nodes && CanMove(nodes, nodes, p, t)
    ensures SameMetadata(avus, MovedAvus(Marked(MovedAvus(avus, p, t), t, p), t, p), nodes, p)
  {
    forall q | q in nodes && q != p
      ensures AvusAt(MovedAvus(Marked(MovedAvus(avus, p, t), t, p), t, p), q) == AvusAt(avus, q)
    {
      MarkedAt(avus, nodes, p, t, q);
    }
  }

  /** Main result: planning the restore of what was trashed as `t` gives back exactly `p` unless the user
      can no longer write to the collection it was in. */
  lemma {:induction false} PlanAfterTrashing(nodes: set<Path>, collections: set<Path>, inherits: set<Path>, avus: Avus, p: Path, t: Path,
                          acls: Acls, layout: Layout, user: User, plan: RestorePlan)
    requires Before(nodes, collections, inherits, avus) && CanMove(nodes, collections, p, t) && GoPaths.IsPath(p)
    requires acls.Keys == MovedSet(nodes, p, t)
    requires PlansTo(acls, Marked(MovedAvus(avus, p, t), t, p), layout, user, t, plan)
    ensures plan == RestorePlan(p, false) <==> Held(acls, Dir(p), user) in {Write, Own}
  {
    TrashedIsTree(nodes, p, t);
    ParentStays(nodes, collections, p, t);
    OriginReplaced(AvusAt(MovedAvus(avus, p, t), t), GoPaths.Spelled(p));
    PlanFindsOrigin(acls, Marked(MovedAvus(avus, p, t), t, p), layout, user, t, p, plan);
  }

  lemma ParentStays(nodes: set<Path>, collections: set<Path>, p: Path, t: Path)
    requires p in nodes && p != [] && Dir(p) in collections && collections <= nodes
    ensures Dir(p) in MovedSet(collections, p, t) && Dir(p) in MovedSet(nodes, p, t)
  {
    assert MovedPath(Dir(p), p, t) == Dir(p);
  }
}
