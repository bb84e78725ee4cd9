/** Exactly what a move and its repair change outside the moved thing, in terms of the paths, the layout and
    the lists alone. */
module Cleanup {
  import opened Paths
  import opened Access
  import opened Moves
  import opened Permissions
  import opened Navigability
  import opened RepairOutcome

  // ----- When read on a walk is taken back, in any state -----

  /** If `u` merely reads `r`, everything they see directly in it lies on the way to `source` and is merely
      read too. */
  ghost predicate LeadsOnlyTo(acls: Acls, source: Path, r: Path, u: User) {
    Held(acls, r, u) == Read ==>
      forall c :: c in acls && IsChild(c, r) && Sees(acls, c, u) ==> c < source && Held(acls, c, u) == Read
  }

  /** Those of the first `i` collections of a walk that `u` merely reads. */
  function ReadUpto(acls: Acls, chain: seq<Path>, u: User, i: nat): set<Path>
    requires i <= |chain|
  {
    set p | p in chain[..i] && Held(acls, p, u) == Read
  }

  lemma ReadUptoOneMore(acls: Acls, chain: seq<Path>, u: User, i: nat)
    requires i < |chain|
    ensures ReadUpto(acls, chain, u, i + 1)
         == ReadUpto(acls, chain, u, i) + if Held(acls, chain[i], u) == Read then {chain[i]} else {}
  {
    assert chain[..i + 1] == chain[..i] + [chain[i]];
  }

  /** The cleanup gets past the `j`-th collection of a walk. */
  ghost predicate Passes(acls: Acls, chain: seq<Path>, u: User, j: nat)
    requires j < |chain|
  {
    Held(acls, chain[j], u) == Read ==> !HoldsReadable(acls, chain[j], u, ReadUpto(acls, chain, u, j))
  }

  lemma ObsoleteTakes(acls: Acls, chain: seq<Path>, u: User, i: nat)
    requires i < |chain|
    ensures Obsolete(acls, chain[i..], u, ReadUpto(acls, chain, u, i))
         == if !Passes(acls, chain, u, i) then {}
            else (if Held(acls, chain[i], u) == Read then {chain[i]} else {})
                 + Obsolete(acls, chain[i + 1..], u, ReadUpto(acls, chain, u, i + 1))
  {
    assert chain[i..][0] == chain[i] && chain[i..][1..] == chain[i + 1..];
    ReadUptoOneMore(acls, chain, u, i);
    if Held(acls, chain[i], u) != Read {
      assert ReadUpto(acls, chain, u, i + 1) == ReadUpto(acls, chain, u, i);
    }
  }

  lemma {:induction false} ObsoleteByPlace(acls: Acls, chain: seq<Path>, u: User, i: nat, k: nat)
    requires Distinct(chain) && i <= k < |chain|
    ensures chain[k] in Obsolete(acls, chain[i..], u, ReadUpto(acls, chain, u, i))
       <==> Held(acls, chain[k], u) == Read && forall j :: i <= j <= k ==> Passes(acls, chain, u, j)
    decreases |chain| - i
  {
    ObsoleteTakes(acls, chain, u, i);
    if i < k {
      ObsoleteByPlace(acls, chain, u, i + 1, k);
    } else if chain[k] in Obsolete(acls, chain[i + 1..], u, ReadUpto(acls, chain, u, i + 1)) {
      ObsoleteIsReadOnChain(acls, chain[i + 1..], u, ReadUpto(acls, chain, u, i + 1), chain[k]);
    }
  }

  /** Of a walk, only the collection before lies directly in a place. */
  lemma ChildOnWalk(p: Path, stops: set<Path>, j: nat, c: Path)
    requires j < |Ancestors(p, stops)| && IsChild(c, Ancestors(p, stops)[j])
    ensures c < p <==> c in Ancestors(p, stops)[..j]
  {
    var chain := Ancestors(p, stops);
    AncestorAt(p, stops, j);
    if c < p {
      assert c == p[..|c|] && |c| == |p| - j && 0 < j;
      AncestorAt(p, stops, j - 1);
      assert chain[..j][j - 1] == c;
    }
    if c in chain[..j] {
      var i :| 0 <= i < j && chain[i] == c;
      AncestorAt(p, stops, i);
    }
  }

  lemma PassesExactly(acls: Acls, p: Path, stops: set<Path>, u: User, j: nat)
    requires j < |Ancestors(p, stops)|
    ensures Passes(acls, Ancestors(p, stops), u, j) <==> LeadsOnlyTo(acls, p, Ancestors(p, stops)[j], u)
  {
    var chain := Ancestors(p, stops);
    var gone := ReadUpto(acls, chain, u, j);
    forall c | IsChild(c, chain[j]) ensures c in gone <==> c < p && Held(acls, c, u) == Read {
      ChildOnWalk(p, stops, j, c);
    }
  }

  /** Main result: in any state read at `p` is taken back on the walk up from `source` exactly when `p` is on
      the walk and read, and everything read from there down leads only to `source`. */
  lemma {:induction false} TakenExactly(acls: Acls, source: Path, stops: set<Path>, u: User, p: Path)
    ensures p in Obsolete(acls, Ancestors(source, stops), u, {})
       <==> && p in Ancestors(source, stops) && Held(acls, p, u) == Read
            && forall r :: p <= r && r < source ==> LeadsOnlyTo(acls, source, r, u)
  {
    var chain := Ancestors(source, stops);
    if p in chain {
      var k: nat :| k < |chain| && chain[k] == p;
      AncestorsDistinct(source, stops);
      assert chain[0..] == chain && ReadUpto(acls, chain, u, 0) == {};
      ObsoleteByPlace(acls, chain, u, 0, k);
      PassesDownFrom(acls, source, stops, u, k);
    } else if p in Obsolete(acls, chain, u, {}) {
      ObsoleteIsReadOnChain(acls, chain, u, {}, p);
    }
  }

  lemma PassesDownFrom(acls: Acls, source: Path, stops: set<Path>, u: User, k: nat)
    requires k < |Ancestors(source, stops)|
    ensures var chain := Ancestors(source, stops);
            (forall j :: 0 <= j <= k ==> Passes(acls, chain, u, j))
            <==> forall r :: chain[k] <= r && r < source ==> LeadsOnlyTo(acls, source, r, u)
  {
    var chain := Ancestors(source, stops);
    if forall j :: 0 <= j <= k ==> Passes(acls, chain, u, j) {
      forall r | chain[k] <= r && r < source ensures LeadsOnlyTo(acls, source, r, u) {
        var j := WhereOnWalk(source, stops, k, r);
        assert Passes(acls, chain, u, j);
        PassesExactly(acls, source, stops, u, j);
      }
    }
    if forall r :: chain[k] <= r && r < source ==> LeadsOnlyTo(acls, source, r, u) {
      forall j | 0 <= j <= k ensures Passes(acls, chain, u, j) {
        OnWalkAbove(source, stops, k, j);
        assert LeadsOnlyTo(acls, source, chain[j], u);
        PassesExactly(acls, source, stops, u, j);
      }
    }
  }

  lemma WhereOnWalk(source: Path, stops: set<Path>, k: nat, r: Path) returns (j: nat)
    requires k < |Ancestors(source, stops)| && Ancestors(source, stops)[k] <= r && r < source
    ensures j <= k && Ancestors(source, stops)[j] == r
  {
    AncestorAt(source, stops, k);
    j := |source| - 1 - |r|;
    AncestorAt(source, stops, j);
    assert r == source[..|r|];
  }

  lemma OnWalkAbove(source: Path, stops: set<Path>, k: nat, j: nat)
    requires j <= k < |Ancestors(source, stops)|
    ensures Ancestors(source, stops)[k] <= Ancestors(source, stops)[j] && Ancestors(source, stops)[j] < source
  {
    AncestorAt(source, stops, k);
    AncestorAt(source, stops, j);
  }

  // ----- The repair's own walks -----

  /** `p` is above `q`, with neither the homes nor the trash on the way, and not directly under the root. */
  predicate Above(layout: Layout, p: Path, q: Path) {
    && 2 <= |p| && p < q
    && !(p <= layout.home && layout.home < q)
    && !(p <= [layout.zone, "trash", "home"] && [layout.zone, "trash", "home"] < q)
  }

  /** Nor the acting user's own home. */
  predicate AboveShort(layout: Layout, user: User, p: Path, q: Path) {
    Above(layout, p, q) && !(p <= layout.home + [user] && layout.home + [user] < q)
  }

  lemma NoStopBetween(p: Path, q: Path, stops: set<Path>)
    requires p < q
    ensures (forall i :: |p| <= i < |q| ==> q[..i] !in stops) <==> forall s :: s in stops ==> !(p <= s && s < q)
  {
    if s :| s in stops && p <= s && s < q {
      assert q[..|s|] == s;
    }
    if i :| |p| <= i < |q| && q[..i] in stops {
      assert p <= q[..i] && q[..i] < q;
    }
  }

  lemma WalksExactly(move: MoveContext, p: Path)
    ensures p in Ancestors(move.destination, Roots(move.layout)) <==> Above(move.layout, p, move.destination)
    ensures p in Ancestors(move.source, move.CleanupStops()) <==> AboveShort(move.layout, move.user, p, move.source)
  {
    InAncestors(move.destination, Roots(move.layout), p);
    InAncestors(move.source, move.CleanupStops(), p);
    if p < move.destination { NoStopBetween(p, move.destination, Roots(move.layout)); }
    if p < move.source { NoStopBetween(p, move.source, move.CleanupStops()); }
  }

  /** Read that `u` has at `p` for the sake of the moved thing alone, once that has moved. They have to be on
      the list of the collection it was in. */
  ghost predicate OnlyForMoved(moved: Acls, move: MoveContext, p: Path, u: User) {
    && AboveShort(move.layout, move.user, p, move.source) && u in Lookup(moved, Dir(move.source))
    && Held(moved, p, u) == Read && forall r :: p <= r && r < move.source ==> LeadsOnlyTo(moved, move.source, r, u)
  }

  lemma CleanedUpExactly(acls: Acls, move: MoveContext, p: Path, u: User)
    requires p in acls
    ensures var now := CleanedUp(acls, move);
            && now.Keys == acls.Keys
            && Entry(now, p, u) == if u !in Apart(move) && OnlyForMoved(acls, move, p, u) then Unlisted else Entry(acls, p, u)
  {
    WalksExactly(move, p);
    TakenExactly(acls, move.source, move.CleanupStops(), u, p);
  }

  /** Read that somebody on the moved thing's list needs at `p` to reach it. */
  predicate NeededForMoved(acls: Acls, move: MoveContext, p: Path, u: User) {
    && Above(move.layout, p, move.destination) && u in Lookup(acls, move.source) && Held(acls, p, u) !in {Write, Own}
  }

  ghost function OutsideEntry(acls: Acls, move: MoveContext, sourceInherits: bool, destinationInherits: bool, p: Path, u: User): Listed {
    if u == move.user || u == move.proxy || u in move.admins || Dir(move.source) == Dir(move.destination) then Entry(acls, p, u)
    else if !sourceInherits && !destinationInherits && NeededForMoved(acls, move, p, u) then Listed(Read)
    else if !sourceInherits && OnlyForMoved(Moved(acls, move.source, move.destination), move, p, u) then Unlisted
    else Entry(acls, p, u)
  }

  /** How an ending leaves one entry outside the moved thing. */
  lemma EndingOutsideExactly(start: Acls, move: MoveContext, sourceInherits: bool, destinationInherits: bool, p: Path, u: User)
    requires CanRepair(start, move) && !(move.destination <= Dir(move.destination))
    requires p in start && !(move.destination <= p)
    ensures var now := Ending(start, move, sourceInherits, destinationInherits);
            && p in now
            && Entry(now, p, u) == if !sourceInherits && !destinationInherits && u !in Apart(move)
                                      && u in start[move.destination] && Held(start, p, u) !in {Write, Own}
                                      && Above(move.layout, p, move.destination)
                                   then Listed(Read) else Entry(start, p, u)
  {
    WalksExactly(move, p);
  }

  /** Main result: what every account has at every place outside the moved thing after a move and its repair,
      in every state. */
  lemma {:induction false} OutsideExactly(acls: Acls, move: MoveContext, sourceInherits: bool, destinationInherits: bool, p: Path, u: User)
    requires Performs(acls, move) && p in acls && !(move.source <= p)
    ensures CanRepair(Moved(acls, move.source, move.destination), move)
    ensures var now := Repaired(Moved(acls, move.source, move.destination), move, sourceInherits, destinationInherits);
            p in now && Entry(now, p, u) == OutsideEntry(acls, move, sourceInherits, destinationInherits, p, u)
  {
    MovedIsTree(acls, move);
    UnmovedAt(acls, move, p);
    if Dir(move.source) != Dir(move.destination) {
      OutsideMoved(acls, move, sourceInherits, destinationInherits, p, u);
    }
  }

  lemma OutsideMoved(acls: Acls, move: MoveContext, sourceInherits: bool, destinationInherits: bool, p: Path, u: User)
    requires Performs(acls, move) && p in acls && !(move.source <= p) && Dir(move.source) != Dir(move.destination)
    requires p in Moved(acls, move.source, move.destination) && !(move.destination <= p)
    requires Moved(acls, move.source, move.destination)[p] == acls[p]
    ensures CanRepair(Moved(acls, move.source, move.destination), move)
    ensures var now := Repaired(Moved(acls, move.source, move.destination), move, sourceInherits, destinationInherits);
            p in now && Entry(now, p, u) == OutsideEntry(acls, move, sourceInherits, destinationInherits, p, u)
  {
    EndingsCanStart(acls, move, sourceInherits);
    var start := BeforeEnding(acls, move, sourceInherits);
    StartsOutside(acls, move, sourceInherits, p, u);
    EndingOutsideExactly(start, move, sourceInherits, destinationInherits, p, u);
    assert u in start[move.destination] <==> u in Lookup(acls, move.source);
  }

  /** What an entry outside the moved thing is when the endings start. */
  lemma StartsOutside(acls: Acls, move: MoveContext, sourceInherits: bool, p: Path, u: User)
    requires p in Moved(acls, move.source, move.destination) && p in acls
    requires Moved(acls, move.source, move.destination)[p] == acls[p]
    ensures var moved, start := Moved(acls, move.source, move.destination), BeforeEnding(acls, move, sourceInherits);
            && p in start
            && Entry(start, p, u) == (if !sourceInherits && u !in Apart(move) && OnlyForMoved(moved, move, p, u) then Unlisted
                                      else Entry(acls, p, u))
            && (Held(start, p, u) in {Write, Own} <==> Held(acls, p, u) in {Write, Own})
  {
    CleanedUpExactly(Moved(acls, move.source, move.destination), move, p, u);
  }

  /** Main result: so whatever anybody has on the homes, the trash, the acting user's own home or anything
      above those, no cleanup takes it when the moved thing was below. */
  lemma {:induction false} StopsAreSpared(acls: Acls, move: MoveContext, sourceInherits: bool, destinationInherits: bool,
                                          stop: Path, p: Path, u: User)
    requires Performs(acls, move) && p in acls && p <= stop && stop < move.source
    requires stop == move.layout.home || stop == [move.layout.zone, "trash", "home"] || stop == move.layout.home + [move.user]
    ensures CanRepair(Moved(acls, move.source, move.destination), move)
    ensures var now := Repaired(Moved(acls, move.source, move.destination), move, sourceInherits, destinationInherits);
            && (Sees(acls, p, u) ==> Sees(now, p, u))
            && (Held(acls, p, u) in {Read, Write, Own} ==> Held(now, p, u) == Held(acls, p, u))
  {
    StopIsNotWalked(move, stop, p);
    OutsideExactly(acls, move, sourceInherits, destinationInherits, p, u);
    SparedEntry(acls, move, sourceInherits, destinationInherits, p, u,
                Repaired(Moved(acls, move.source, move.destination), move, sourceInherits, destinationInherits));
  }

  lemma SparedEntry(acls: Acls, move: MoveContext, sourceInherits: bool, destinationInherits: bool, p: Path, u: User, now: Acls)
    requires Entry(now, p, u) == OutsideEntry(acls, move, sourceInherits, destinationInherits, p, u)
    requires !AboveShort(move.layout, move.user, p, move.source)
    ensures Sees(acls, p, u) ==> Sees(now, p, u)
    ensures Held(acls, p, u) in {Read, Write, Own} ==> Held(now, p, u) == Held(acls, p, u)
  {
  }

  lemma StopIsNotWalked(move: MoveContext, stop: Path, p: Path)
    requires p <= stop && stop < move.source
    requires stop == move.layout.home || stop == [move.layout.zone, "trash", "home"] || stop == move.layout.home + [move.user]
    ensures !AboveShort(move.layout, move.user, p, move.source) && !(move.source <= p)
  {
  }
}
