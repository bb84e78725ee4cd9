/** Where a restore is planned to and what belongs to whom afterwards, in terms of the paths and the lists alone. */
module RestoreOutcome {
  import opened Paths
  import opened Access
  import opened Moves
  import opened Stores
  import opened Permissions
  import opened Trash
  import GoPaths

  // ----- Numbered names -----

  function DigitOf(c: char): int { c as int - '0' as int }

  /** The number some digits spell. */
  function NumberOf(s: string): int {
    if s == "" then 0 else 10 * NumberOf(s[..|s| - 1]) + DigitOf(s[|s| - 1])
  }

  predicate IsDecimal(s: string) {
    s != "" && (forall i :: 0 <= i < |s| ==> '0' <= s[i] <= '9') && (1 < |s| ==> s[0] != '0')
  }

  /** The decimal spelling of a number: digits that spell it, with none to spare in front. */
  lemma {:induction false} DecimalExactly(n: nat)
    ensures IsDecimal(Decimal(n)) && NumberOf(Decimal(n)) == n
    ensures 0 < n ==> Decimal(n)[0] != '0'
  {
    DigitExactly(n % 10);
    if n < 10 {
      assert Decimal(n)[..0] == "";
    } else {
      DecimalExactly(n / 10);
      var s := Decimal(n);
      assert s[..|s| - 1] == Decimal(n / 10);
    }
  }

  lemma DigitExactly(d: nat)
    requires d < 10
    ensures '0' <= DIGITS[d] <= '9' && DigitOf(DIGITS[d]) == d
  {
  }

  /** `name` in a collection if that is free, else with a dot and the smallest number that makes it so. */
  ghost predicate FirstFreeIn(nodes: set<Path>, collection: Path, name: string, free: Path) {
    && free !in nodes
    && (collection + [name] !in nodes ==> free == collection + [name])
    && (collection + [name] in nodes ==> exists n: nat :: IsNextName(nodes, collection, name, n, free))
  }

  ghost predicate IsNextName(nodes: set<Path>, collection: Path, name: string, n: nat, free: Path) {
    && free == collection + [name + "." + Decimal(n)]
    && forall k: nat :: k < n ==> collection + [name + "." + Decimal(k)] in nodes
  }

  lemma FreeInPlace(nodes: set<Path>, collection: Path, name: string, free: Path)
    requires FirstFree(nodes, collection + [name], free)
    ensures FirstFreeIn(nodes, collection, name, free)
  {
    var p := collection + [name];
    assert Dir(p) == collection;
    if p in nodes {
      var n: nat :| free == Numbered(p, n) && free !in nodes && TakenBelow(nodes, p, n);
      forall k: nat | k < n ensures collection + [name + "." + Decimal(k)] in nodes {
        assert Numbered(p, k) in nodes;
      }
      assert IsNextName(nodes, collection, name, n, free);
    }
  }

  // ----- Plans -----

  /** No origin is recorded. */
  predicate Unrecorded(avus: seq<Avu>) { forall i :: 0 <= i < |avus| ==> avus[i].attribute != "ipc-trash-origin" }

  /** The first recorded origin. */
  predicate Recorded(avus: seq<Avu>, i: nat, origin: string) {
    && i < |avus| && avus[i] == Avu("ipc-trash-origin", origin, avus[i].unit)
    && forall j :: 0 <= j < i ==> avus[j].attribute != "ipc-trash-origin"
  }

  lemma {:induction false} OriginExactly(avus: seq<Avu>, i: nat, origin: string)
    ensures Unrecorded(avus) ==> Origin(avus) == ""
    ensures Recorded(avus, i, origin) ==> Origin(avus) == origin
  {
    if avus != [] && avus[0].attribute != "ipc-trash-origin" {
      var rest := avus[1..];
      assert forall j :: 0 <= j < |rest| ==> rest[j] == avus[j + 1];
      OriginExactly(rest, if i == 0 then 0 else i - 1, origin);
    }
  }

  /** The collection an origin names is there, and the user has neither write nor own on it. */
  predicate ClosedTo(acls: Acls, collection: Path, user: User) {
    collection in acls && Held(acls, collection, user) !in {Write, Own}
  }

  /** Main result: with no origin recorded a restore is planned, as partial, for the user's own home under
      the name the thing has in the trash. */
  lemma {:induction false} UnrecordedGoesHome(acls: Acls, avus: Avus, layout: Layout, user: User, t: Path, plan: RestorePlan)
    requires PlansTo(acls, avus, layout, user, t, plan) && t != [] && Unrecorded(AvusAt(avus, t))
    ensures plan.partialRestore
    ensures FirstFreeIn(acls.Keys, layout.home + [user], t[|t| - 1], plan.restored)
  {
    OriginExactly(AvusAt(avus, t), 0, "");
    FreeInPlace(acls.Keys, layout.home + [user], t[|t| - 1], plan.restored);
  }

  /** Main result: with `p` recorded it is planned for the collection `p` was in, under its name there, unless
      that is closed to the user; and then, as partial, for their own home. */
  lemma {:induction false} RecordedGoesBack(acls: Acls, avus: Avus, layout: Layout, user: User, t: Path, plan: RestorePlan,
                                            i: nat, p: Path)
    requires PlansTo(acls, avus, layout, user, t, plan) && t != [] && GoPaths.IsPath(p) && p != []
    requires Recorded(AvusAt(avus, t), i, GoPaths.Spelled(p))
    ensures plan.partialRestore <==> ClosedTo(acls, Dir(p), user)
    ensures plan.partialRestore ==> FirstFreeIn(acls.Keys, layout.home + [user], t[|t| - 1], plan.restored)
    ensures !plan.partialRestore ==> FirstFreeIn(acls.Keys, Dir(p), p[|p| - 1], plan.restored)
  {
    OriginExactly(AvusAt(avus, t), i, GoPaths.Spelled(p));
    PlanFindsOrigin(acls, avus, layout, user, t, p, plan);
    PathOfSpelled(p);
    if plan.partialRestore {
      FreeInPlace(acls.Keys, layout.home + [user], t[|t| - 1], plan.restored);
    } else {
      assert Dir(p) + [p[|p| - 1]] == p;
      FreeInPlace(acls.Keys, Dir(p), p[|p| - 1], plan.restored);
    }
  }

  // ----- What the thing itself carries -----

  lemma {:induction false} WithoutExactly(avus: seq<Avu>, attribute: string, a: Avu)
    ensures multiset(Without(avus, attribute))[a] == if a.attribute == attribute then 0 else multiset(avus)[a]
  {
    if avus != [] {
      WithoutExactly(avus[1..], attribute, a);
      assert avus == [avus[0]] + avus[1..];
      assert multiset(avus) == multiset{avus[0]} + multiset(avus[1..]);
    }
  }

  /** Main result: trashed and put back, a thing carries what it carried, and its origin once instead of
      whatever origins it carried before. */
  lemma {:induction false} KeepsItsMetadata(nodes: set<Path>, avus: Avus, p: Path, t: Path, a: Avu)
    requires IsTree(nodes) && [] in nodes && avus.Keys <= nodes && CanMove(nodes, nodes, p, t)
    ensures var now := AvusAt(MovedAvus(Marked(MovedAvus(avus, p, t), t, p), t, p), p);
            multiset(now)[a] == if a == Avu("ipc-trash-origin", GoPaths.Spelled(p), "ipc-system-avu") then 1
                                else if a.attribute == "ipc-trash-origin" then 0
                                else multiset(AvusAt(avus, p))[a]
  {
    MarkedAt(avus, nodes, p, t, p);
    WithoutExactly(AvusAt(avus, p), TRASH_ORIGIN, a);
  }

  // ----- What is made on the way -----

  /** Main result: the nearest place strictly above `p` that the user can see, if there is one. */
  lemma {:induction false} FirstVisibleExactly(acls: Acls, p: Path, user: User, q: Path)
    ensures FirstVisibleAbove(acls, p, user) == At(q)
       <==> && q < p && q in acls && user in acls[q]
            && forall r :: q < r && r < p ==> !(r in acls && user in acls[r])
    ensures FirstVisibleAbove(acls, p, user) == Nowhere <==> forall r :: r < p ==> !(r in acls && user in acls[r])
    decreases |p|
  {
    if p != [] {
      var d := Dir(p);
      assert forall r: Path :: r in acls ==> (r < p <==> r == d || r < d);
      FirstVisibleExactly(acls, d, user, q);
    }
  }

  /** The walk up hands over everything from `p` to the first of what was visible and the home. */
  lemma {:induction false} HandedExactly(p: Path, extant: Found, home: Path, q: Path)
    ensures q in Handed(p, extant, home)
       <==> q <= p && !(extant.At? && q <= extant.path && extant.path <= p) && !(q <= home && home <= p)
    decreases |p|
  {
    if p != [] {
      var d := Dir(p);
      HandedExactly(d, extant, home, q);
      BelowOrAt(q, p);
      BelowOrAt(home, p);
      if extant.At? { BelowOrAt(extant.path, p); }
    }
  }

  /** Main result: of the collections a restore makes, the user is made owner of every one that is not at
      their home or above it. */
  lemma {:induction false} CreatedAreOwned(acls: Acls, p: Path, home: Path, user: User, given: Acl, q: Path)
    requires IsTree(acls.Keys) && q <= p && q !in acls
    ensures q in HandedOver(acls, p, home, user, given)
    ensures HandedOver(acls, p, home, user, given)[q] == if q <= home && home <= p then given else given[user := Own]
  {
    var extant := FirstVisibleAbove(acls, p, user);
    assert q in Upto(p) by { assert q == p[..|q|]; }
    HandedExactly(p, extant, home, q);
    if extant.At? {
      FirstVisibleExactly(acls, p, user, extant.path);
      if q <= extant.path { TreeIsPrefixClosed(acls.Keys, extant.path, q); }
    }
  }

  /** The walk up from a collection the user cannot see comes to `q`: neither their home nor anything they can
      see is there or on the way. */
  ghost predicate WalkComesTo(acls: Acls, parent: Path, home: Path, user: User, q: Path) {
    && q <= parent && !(q <= home && home <= parent)
    && forall r :: q <= r && r < parent ==> !(r in acls && user in acls[r])
  }

  lemma WalkExactly(acls: Acls, parent: Path, home: Path, user: User, q: Path)
    requires !(parent in acls && user in acls[parent])
    ensures q in Handed(parent, FirstVisibleAbove(acls, parent, user), home) <==> WalkComesTo(acls, parent, home, user, q)
  {
    var extant := FirstVisibleAbove(acls, parent, user);
    HandedExactly(parent, extant, home, q);
    FirstVisibleExactly(acls, parent, user, if extant.At? then extant.path else []);
    if extant.At? && q <= parent && !(q <= extant.path) {
      forall r | q <= r && r < parent ensures !(r in acls && user in acls[r]) {
        assert extant.path <= parent;
      }
    }
  }

  /** Main result: the access lists a restore moves the thing into, when the user cannot see the collection it
      goes to: what was missing is there, and the user owns whatever the walk up came to. */
  lemma {:induction false} ParentsExactly(acls: Acls, move: MoveContext, given: Acl, q: Path)
    requires var parent := Dir(move.destination); !(parent in acls && move.user in acls[parent])
    ensures var now, parent := WithParents(acls, move, given), Dir(move.destination);
            && (q in now <==> q in acls || q <= parent)
            && (q in now ==>
                  var before := Initially(acls, given, q);
                  now[q] == if WalkComesTo(acls, parent, move.layout.home + [move.user], move.user, q) then before[move.user := Own]
                            else before)
  {
    var parent := Dir(move.destination);
    WalkExactly(acls, parent, move.layout.home + [move.user], move.user, q);
    UptoExactly(parent, q);
  }

  lemma UptoExactly(p: Path, q: Path)
    ensures q in Upto(p) <==> q <= p
  {
    if q <= p { assert q == p[..|q|]; }
  }

  /** Main result: making and handing over what is missing is refused exactly when the user may not create it, a
      place on the way is no collection, or the walk up comes to one they do not own and may not be given. */
  lemma {:induction false} ParentsCanBeExactly(acls: Acls, collections: set<Path>, move: MoveContext, server: Server)
    requires var parent := Dir(move.destination); !(parent in acls && move.user in acls[parent])
    ensures var parent := Dir(move.destination);
            ParentsCanBe(acls, collections, move, server)
            <==> && server.mayCreate
                 && (forall q :: q in acls && q <= parent ==> q in collections)
                 && (forall q :: q in server.refused && WalkComesTo(acls, parent, move.layout.home + [move.user], move.user, q) ==>
                       move.user in Initially(acls, server.given, q) && Initially(acls, server.given, q)[move.user] == Own)
  {
    var parent, home := Dir(move.destination), move.layout.home + [move.user];
    var made := WithNew(acls, Upto(parent), server.given);
    forall q ensures q in Upto(parent) <==> q <= parent {
      UptoExactly(parent, q);
    }
    forall q | q in server.refused
      ensures q in Handed(parent, FirstVisibleAbove(acls, parent, move.user), home)
         <==> WalkComesTo(acls, parent, home, move.user, q)
      ensures q <= parent ==> q in made && made[q] == Initially(acls, server.given, q)
    {
      WalkExactly(acls, parent, home, move.user, q);
    }
    assert Upto(parent) * acls.Keys <= collections <==> forall q :: q in acls && q <= parent ==> q in collections;
    var blocked := Blocked(made, move.user, server.refused);
    assert forall q :: q in blocked <==> q in server.refused && Held(made, q, move.user) != Own;
  }

  function Initially(acls: Acls, given: Acl, q: Path): Acl { if q in acls then acls[q] else given }
}
