/** Exactly what a move and its repair change, in whatever state they find the access lists. */
module RepairOutcome {
  import opened Paths
  import opened Access
  import opened Moves
  import opened Permissions
  import opened Navigability

  // ----- Where the endings start from -----

  /** The cleanup is confined to collections above the source, so the moved thing is as it arrived. */
  lemma {:induction false} CleanedUpAt(acls: Acls, move: MoveContext, p: Path, u: User)
    requires Performs(acls, move) && p in Moved(acls, move.source, move.destination)
    ensures var moved := Moved(acls, move.source, move.destination); var cleaned := CleanedUp(moved, move);
            && cleaned.Keys == moved.Keys
            && (Entry(cleaned, p, u) == Entry(moved, p, u)
                || (p in Ancestors(move.source, move.CleanupStops()) && p < move.source && !(move.destination <= p)
                    && u !in Apart(move)
                    && Held(moved, p, u) == Read && Entry(cleaned, p, u) == Unlisted))
  {
    var moved, chain := Moved(acls, move.source, move.destination), Ancestors(move.source, move.CleanupStops());
    if Entry(CleanedUp(moved, move), p, u) != Entry(moved, p, u) {
      ObsoleteIsReadOnChain(moved, chain, u, {}, p);
      InAncestors(move.source, move.CleanupStops(), p);
      if move.destination <= p { TreeIsPrefixClosed(acls.Keys, move.source, move.destination); }
    }
  }

  /** What the lists are when the endings start, for one account at one place. */
  lemma BeforeEndingAt(acls: Acls, move: MoveContext, sourceInherits: bool, p: Path, u: User)
    requires Performs(acls, move) && p in Moved(acls, move.source, move.destination)
    ensures var moved, start := Moved(acls, move.source, move.destination), BeforeEnding(acls, move, sourceInherits);
            && start.Keys == moved.Keys
            && (Entry(start, p, u) == Entry(moved, p, u)
                || (!sourceInherits && p in Ancestors(move.source, move.CleanupStops()) && p < move.source
                    && !(move.destination <= p) && u !in Apart(move)
                    && Held(moved, p, u) == Read && Entry(start, p, u) == Unlisted))
  {
    CleanedUpAt(acls, move, p, u);
  }

  lemma MovedIsTree(acls: Acls, move: MoveContext)
    requires Performs(acls, move)
    ensures var moved := Moved(acls, move.source, move.destination);
            && IsTree(moved.Keys) && CanRepair(moved, move)
            && moved[move.destination] == acls[move.source] && !(move.destination <= Dir(move.destination))
  {
    var moved := Moved(acls, move.source, move.destination);
    forall q | q in moved && q != [] ensures Dir(q) in moved {
      MovedParent(acls, move, q);
    }
    AfterMove(acls, move, move.destination);
    assert move.source + move.destination[|move.destination|..] == move.source;
    MovedParent(acls, move, move.destination);
  }

  lemma EndingsCanStart(acls: Acls, move: MoveContext, sourceInherits: bool)
    requires Performs(acls, move)
    ensures var moved, start := Moved(acls, move.source, move.destination), BeforeEnding(acls, move, sourceInherits);
            && start.Keys == moved.Keys && IsTree(start.Keys) && CanRepair(moved, move) && CanRepair(start, move)
            && moved[move.destination] == acls[move.source] && !(move.destination <= Dir(move.destination))
            && forall u :: u in start[move.destination] <==> u in acls[move.source]
  {
    MovedIsTree(acls, move);
    var moved, start := Moved(acls, move.source, move.destination), BeforeEnding(acls, move, sourceInherits);
    BeforeEndingAt(acls, move, sourceInherits, move.destination, "");
    forall u: User ensures u in start[move.destination] <==> u in acls[move.source] {
      BeforeEndingAt(acls, move, sourceInherits, move.destination, u);
      assert Entry(start, move.destination, u) == Entry(moved, move.destination, u);
    }
  }

  ghost function Ending(start: Acls, move: MoveContext, sourceInherits: bool, destinationInherits: bool): Acls
    requires CanRepair(start, move)
  {
    if destinationInherits then Inherited(Cleared(start, move), move)
    else if sourceInherits then Cleared(start, move)
    else Reachable(start, move)
  }

  // ----- Outside the moved thing -----

  /** How an ending changes one entry outside the moved thing. */
  lemma EndingOutside(start: Acls, move: MoveContext, sourceInherits: bool, destinationInherits: bool, p: Path, u: User)
    requires CanRepair(start, move) && !(move.destination <= Dir(move.destination))
    requires p in start && !(move.destination <= p)
    ensures var now := Ending(start, move, sourceInherits, destinationInherits);
            && now.Keys == start.Keys
            && (Entry(now, p, u) == Entry(start, p, u)
                || (!sourceInherits && !destinationInherits
                    && Held(start, p, u) !in {Write, Own} && Entry(now, p, u) == Listed(Read)
                    && u in start[move.destination] && u !in Apart(move)
                    && p in Ancestors(move.destination, Roots(move.layout))))
  {
  }

  /** Read that was taken from a collection on the walk up from the source, or given on one on the walk up from
      the destination. */
  ghost predicate ReadTaken(acls: Acls, move: MoveContext, p: Path, u: User, now: Acls) {
    && p in Ancestors(move.source, move.CleanupStops()) && p < move.source
    && Held(acls, p, u) == Read && Entry(now, p, u) == Unlisted
  }

  ghost predicate ReadGiven(acls: Acls, move: MoveContext, p: Path, u: User, now: Acls) {
    && p in Ancestors(move.destination, Roots(move.layout)) && u in Lookup(acls, move.source)
    && Held(acls, p, u) !in {Write, Own} && Entry(now, p, u) == Listed(Read)
  }

  ghost predicate ChangesOnlyRead(acls: Acls, move: MoveContext, sourceInherits: bool, destinationInherits: bool,
                                  p: Path, u: User, now: Acls)
  {
    || Entry(now, p, u) == Entry(acls, p, u)
    || (u !in Apart(move) && !sourceInherits && ReadTaken(acls, move, p, u, now))
    || (u !in Apart(move) && !sourceInherits && !destinationInherits && ReadGiven(acls, move, p, u, now))
  }

  /** What stays where it was is there with the list it had. */
  lemma UnmovedAt(acls: Acls, move: MoveContext, p: Path)
    requires Performs(acls, move) && p in acls && !(move.source <= p)
    ensures p in Moved(acls, move.source, move.destination) && !(move.destination <= p)
    ensures Moved(acls, move.source, move.destination)[p] == acls[p]
  {
    AfterMove(acls, move, p);
    if move.destination <= p { TreeIsPrefixClosed(acls.Keys, p, move.destination); }
  }

  /** Main result: in every state, outside the moved thing a repair leaves each entry as it was, or takes
      read on a collection walked up from the source, or gives read on one walked up from the destination;
      and it does neither to a structural account. */
  lemma {:induction false} RepairOutcomeOutside(acls: Acls, move: MoveContext, sourceInherits: bool, destinationInherits: bool,
                                                p: Path, u: User)
    requires Performs(acls, move) && p in acls && !(move.source <= p)
    ensures CanRepair(Moved(acls, move.source, move.destination), move)
    ensures p in Repaired(Moved(acls, move.source, move.destination), move, sourceInherits, destinationInherits)
    ensures ChangesOnlyRead(acls, move, sourceInherits, destinationInherits, p, u,
              Repaired(Moved(acls, move.source, move.destination), move, sourceInherits, destinationInherits))
  {
    MovedIsTree(acls, move);
    UnmovedAt(acls, move, p);
    if Dir(move.source) != Dir(move.destination) {
      EndingsCanStart(acls, move, sourceInherits);
      BeforeEndingAt(acls, move, sourceInherits, p, u);
      EndingOutside(BeforeEnding(acls, move, sourceInherits), move, sourceInherits, destinationInherits, p, u);
    }
  }

  /** Where neither ending nor cleanup has anything to do, an entry outside is as it was. */
  lemma UntouchedOutside(acls: Acls, move: MoveContext, sourceInherits: bool, destinationInherits: bool, p: Path, u: User)
    requires Performs(acls, move) && p in acls && !(move.source <= p)
    requires u in Apart(move) || sourceInherits || (destinationInherits && !(p < move.source))
    ensures CanRepair(Moved(acls, move.source, move.destination), move)
    ensures Entry(Repaired(Moved(acls, move.source, move.destination), move, sourceInherits, destinationInherits), p, u)
         == Entry(acls, p, u)
  {
    RepairOutcomeOutside(acls, move, sourceInherits, destinationInherits, p, u);
  }

  // ----- Inside it -----

  /** An ending's effect on one account's level at one place inside: by whether they are on the list of the
      top, or of the collection it is now in, whose level they have is `above`. */
  function Ended(level: Level, onTop: bool, onParent: bool, above: Level, sourceInherits: bool, destinationInherits: bool): Level {
    if destinationInherits then (if onTop || onParent then above else level)
    else if sourceInherits && onTop then None
    else level
  }

  lemma EndingInside(start: Acls, move: MoveContext, sourceInherits: bool, destinationInherits: bool, q: Path, u: User)
    requires IsTree(start.Keys) && CanRepair(start, move) && !(move.destination <= Dir(move.destination))
    requires q in start && move.destination <= q
    ensures var now, parent := Ending(start, move, sourceInherits, destinationInherits), Dir(move.destination);
            && now.Keys == start.Keys
            && (u in Apart(move) ==> Entry(now, q, u) == Entry(start, q, u))
            && (u !in Apart(move) ==>
                  Held(now, q, u) == Ended(Held(start, q, u), u in start[move.destination], u in start[parent],
                                           Held(start, parent, u), sourceInherits, destinationInherits))
            && (!sourceInherits && !destinationInherits ==> now[q] == start[q])
  {
    if !sourceInherits && !destinationInherits { ReachableLeavesInside(start, move); }
  }

  lemma ReachableLeavesInside(acls: Acls, move: MoveContext)
    requires CanRepair(acls, move)
    ensures forall p :: p in acls && move.destination <= p ==> Reachable(acls, move)[p] == acls[p]
  {
    forall p | p in acls && move.destination <= p ensures Reachable(acls, move)[p] == acls[p] {
      InAncestors(move.destination, Roots(move.layout), p);
    }
  }

  /** Nobody's hold on the collection something is moved into is changed by the ending. */
  lemma ParentStaysAsIs(start: Acls, move: MoveContext, sourceInherits: bool, destinationInherits: bool, u: User)
    requires CanRepair(start, move) && !(move.destination <= Dir(move.destination))
    requires sourceInherits || destinationInherits
    ensures var now, parent := Ending(start, move, sourceInherits, destinationInherits), Dir(move.destination);
            Entry(now, parent, u) == Entry(start, parent, u)
  {
    EndingOutside(start, move, sourceInherits, destinationInherits, Dir(move.destination), u);
  }

  /** Main result: what a repair leaves each account at each place of the moved thing, in every state. */
  lemma {:induction false} InsideExactly(acls: Acls, move: MoveContext, sourceInherits: bool, destinationInherits: bool,
                                         q: Path, u: User)
    requires Performs(acls, move) && Dir(move.source) != Dir(move.destination)
    requires q in Moved(acls, move.source, move.destination) && move.destination <= q
    ensures CanRepair(Moved(acls, move.source, move.destination), move)
    ensures var moved, start := Moved(acls, move.source, move.destination), BeforeEnding(acls, move, sourceInherits);
            var now, parent := Repaired(moved, move, sourceInherits, destinationInherits), Dir(move.destination);
            && q in now && parent in start && parent in now
            && (u in Apart(move) ==> Entry(now, q, u) == Entry(moved, q, u))
            && (u !in Apart(move) ==>
                  Held(now, q, u) == Ended(Held(moved, q, u), u in acls[move.source], u in start[parent],
                                           Held(start, parent, u), sourceInherits, destinationInherits))
            && (sourceInherits || destinationInherits ==> Held(now, parent, u) == Held(start, parent, u))
            && (!sourceInherits && !destinationInherits ==> Entry(now, q, u) == Entry(moved, q, u))
  {
    EndingsCanStart(acls, move, sourceInherits);
    BeforeEndingAt(acls, move, sourceInherits, q, u);
    var start := BeforeEnding(acls, move, sourceInherits);
    EndingInside(start, move, sourceInherits, destinationInherits, q, u);
    if sourceInherits || destinationInherits {
      ParentStaysAsIs(start, move, sourceInherits, destinationInherits, u);
    }
  }

  /** A place of the moved thing, before and after. */
  lemma PlaceMoves(acls: Acls, move: MoveContext, p: Path)
    requires Performs(acls, move) && p in acls && move.source <= p
    ensures var q, moved := MovedPath(p, move.source, move.destination), Moved(acls, move.source, move.destination);
            q in moved && move.destination <= q && moved[q] == acls[p]
  {
    var q := MovedPath(p, move.source, move.destination);
    AfterMove(acls, move, q);
    assert move.source + q[|move.destination|..] == p;
  }

  lemma PlaceCame(acls: Acls, move: MoveContext, q: Path) returns (p: Path)
    requires Performs(acls, move) && q in Moved(acls, move.source, move.destination) && move.destination <= q
    ensures p in acls && move.source <= p && q == MovedPath(p, move.source, move.destination)
    ensures Moved(acls, move.source, move.destination)[q] == acls[p]
  {
    AfterMove(acls, move, q);
    p := move.source + q[|move.destination|..];
    assert p[|move.source|..] == q[|move.destination|..];
  }

  /** Whoever is not structural and sees something of what is moved is on the list of its top. */
  ghost predicate ListedOnTop(acls: Acls, move: MoveContext) {
    forall p, u :: p in acls && move.source <= p && u !in Apart(move) && Sees(acls, p, u) ==>
      move.source in acls && u in acls[move.source]
  }

  /** Or on the list of the collection it is moved into, as that is when the endings start. */
  ghost predicate ListedOnEither(acls: Acls, move: MoveContext, sourceInherits: bool) {
    forall p, u :: p in acls && move.source <= p && u !in Apart(move) && Sees(acls, p, u) ==>
      || (move.source in acls && u in acls[move.source])
      || u in Lookup(BeforeEnding(acls, move, sourceInherits), Dir(move.destination))
  }

  ghost predicate NobodySees(now: Acls, top: Path, structural: set<User>) {
    forall p, u :: p in now && top <= p && u !in structural ==> !Sees(now, p, u)
  }

  ghost predicate EverybodyHasParents(now: Acls, top: Path, structural: set<User>) {
    forall p, u :: p in now && top <= p && u !in structural ==> Held(now, p, u) == Held(now, Dir(top), u)
  }

  ghost predicate KeepsEveryList(moved: Acls, now: Acls, top: Path) {
    forall q, u :: q in moved && top <= q ==> Entry(now, q, u) == Entry(moved, q, u)
  }

  /** Whoever was on the list of what is moved can read every collection above where it is now. */
  ghost predicate CanBeReached(acls: Acls, now: Acls, move: MoveContext)
    requires move.source in acls
  {
    forall a, u :: a in Ancestors(move.destination, Roots(move.layout)) ==>
      (u in acls[move.source] && u !in Apart(move) ==> Permits(Held(now, a, u), Read))
  }

  lemma RepairKeepsKeys(acls: Acls, move: MoveContext, sourceInherits: bool, destinationInherits: bool)
    requires Performs(acls, move)
    ensures CanRepair(Moved(acls, move.source, move.destination), move)
    ensures Repaired(Moved(acls, move.source, move.destination), move, sourceInherits, destinationInherits).Keys
         == Moved(acls, move.source, move.destination).Keys
  {
    MovedIsTree(acls, move);
    if Dir(move.source) != Dir(move.destination) {
      EndingsCanStart(acls, move, sourceInherits);
      EndingInside(BeforeEnding(acls, move, sourceInherits), move, sourceInherits, destinationInherits, move.destination, "");
    }
  }

  /** Who is on the list of the top afterwards. */
  lemma TopListExactly(acls: Acls, move: MoveContext, sourceInherits: bool, destinationInherits: bool, u: User)
    requires Performs(acls, move) && Dir(move.source) != Dir(move.destination) && u !in Apart(move)
    ensures CanRepair(Moved(acls, move.source, move.destination), move)
    ensures var now := Repaired(Moved(acls, move.source, move.destination), move, sourceInherits, destinationInherits);
            && move.destination in now
            && (u in now[move.destination] <==>
                  if destinationInherits then Sees(BeforeEnding(acls, move, sourceInherits), Dir(move.destination), u)
                  else !sourceInherits && u in acls[move.source])
  {
    EndingsCanStart(acls, move, sourceInherits);
    EndingOnTop(BeforeEnding(acls, move, sourceInherits), move, sourceInherits, destinationInherits, u);
  }

  lemma EndingOnTop(start: Acls, move: MoveContext, sourceInherits: bool, destinationInherits: bool, u: User)
    requires CanRepair(start, move) && !(move.destination <= Dir(move.destination)) && u !in Apart(move)
    ensures var now := Ending(start, move, sourceInherits, destinationInherits);
            && move.destination in now
            && (u in now[move.destination] <==>
                  if destinationInherits then Sees(start, Dir(move.destination), u)
                  else !sourceInherits && u in start[move.destination])
  {
    if !sourceInherits && !destinationInherits { ReachableLeavesInside(start, move); }
  }

  /** Whoever is not on the list of the top keeps what they see of what is moved. */
  lemma UnlistedKeeps(acls: Acls, move: MoveContext, p: Path, u: User)
    requires Performs(acls, move) && Dir(move.source) != Dir(move.destination)
    requires p in acls && move.source <= p && u !in Apart(move) && Sees(acls, p, u) && u !in acls[move.source]
    ensures CanRepair(Moved(acls, move.source, move.destination), move)
    ensures var now, q := Repaired(Moved(acls, move.source, move.destination), move, true, false),
                          MovedPath(p, move.source, move.destination);
            q in now && move.destination <= q && Sees(now, q, u)
  {
    PlaceMoves(acls, move, p);
    InsideExactly(acls, move, true, false, MovedPath(p, move.source, move.destination), u);
  }

  /** Main result: moved out of an inheriting collection into one that does not inherit, a thing is hidden
      from everybody but the structural accounts if and only if whoever saw anything of it was on the list of
      its top. */
  lemma {:induction false} HiddenExactly(acls: Acls, move: MoveContext)
    requires Performs(acls, move) && Dir(move.source) != Dir(move.destination)
    ensures CanRepair(Moved(acls, move.source, move.destination), move)
    ensures NobodySees(Repaired(Moved(acls, move.source, move.destination), move, true, false), move.destination, Apart(move))
       <==> ListedOnTop(acls, move)
  {
    RepairKeepsKeys(acls, move, true, false);
    var now := Repaired(Moved(acls, move.source, move.destination), move, true, false);
    if ListedOnTop(acls, move) {
      forall q, u | q in now && move.destination <= q && u !in Apart(move) ensures !Sees(now, q, u) {
        var p := PlaceCame(acls, move, q);
        InsideExactly(acls, move, true, false, q, u);
        assert Sees(acls, p, u) ==> u in acls[move.source];
      }
    } else {
      var p, u :| p in acls && move.source <= p && u !in Apart(move) && Sees(acls, p, u)
                  && !(move.source in acls && u in acls[move.source]);
      UnlistedKeeps(acls, move, p, u);
    }
  }

  /** Main result: moved into an inheriting collection, everybody but the structural accounts holds on every
      part of a thing what they hold on the collection if and only if whoever saw anything of it was on the
      list of its top or of the collection. */
  lemma {:induction false} InheritedExactlyWhen(acls: Acls, move: MoveContext, sourceInherits: bool)
    requires Performs(acls, move) && Dir(move.source) != Dir(move.destination)
    ensures CanRepair(Moved(acls, move.source, move.destination), move)
    ensures EverybodyHasParents(Repaired(Moved(acls, move.source, move.destination), move, sourceInherits, true),
                                move.destination, Apart(move))
       <==> ListedOnEither(acls, move, sourceInherits)
  {
    RepairKeepsKeys(acls, move, sourceInherits, true);
    var now := Repaired(Moved(acls, move.source, move.destination), move, sourceInherits, true);
    EndingsCanStart(acls, move, sourceInherits);
    if ListedOnEither(acls, move, sourceInherits) {
      forall q, u | q in now && move.destination <= q && u !in Apart(move)
        ensures Held(now, q, u) == Held(now, Dir(move.destination), u)
      {
        var p := PlaceCame(acls, move, q);
        InsideExactly(acls, move, sourceInherits, true, q, u);
        assert Held(acls, p, u) == Held(Moved(acls, move.source, move.destination), q, u);
        assert !Sees(acls, p, u) || u in acls[move.source]
               || u in Lookup(BeforeEnding(acls, move, sourceInherits), Dir(move.destination));
      }
    } else {
      var p, u :| p in acls && move.source <= p && u !in Apart(move) && Sees(acls, p, u)
                  && !((move.source in acls && u in acls[move.source])
                       || u in Lookup(BeforeEnding(acls, move, sourceInherits), Dir(move.destination)));
      PlaceMoves(acls, move, p);
      InsideExactly(acls, move, sourceInherits, true, MovedPath(p, move.source, move.destination), u);
      assert Held(now, MovedPath(p, move.source, move.destination), u) != Held(now, Dir(move.destination), u);
    }
  }

  /** Main result: moved between collections that do not inherit, a thing keeps every list, and whoever is on
      its top's can read every collection above it, in every state. */
  lemma {:induction false} UninheritedKeeps(acls: Acls, move: MoveContext)
    requires Performs(acls, move) && Dir(move.source) != Dir(move.destination)
    ensures CanRepair(Moved(acls, move.source, move.destination), move)
    ensures var moved := Moved(acls, move.source, move.destination);
            var now := Repaired(moved, move, false, false);
            KeepsEveryList(moved, now, move.destination) && CanBeReached(acls, now, move)
  {
    EndingsCanStart(acls, move, false);
    var moved := Moved(acls, move.source, move.destination);
    forall q, u | q in moved && move.destination <= q
      ensures Entry(Repaired(moved, move, false, false), q, u) == Entry(moved, q, u)
    {
      InsideExactly(acls, move, false, false, q, u);
    }
    forall a, u | a in Ancestors(move.destination, Roots(move.layout)) && u in acls[move.source] && u !in Apart(move)
      ensures Permits(Held(Repaired(moved, move, false, false), a, u), Read)
    {
      ReachedFrom(acls, move, a, u);
    }
  }

  lemma ReachedFrom(acls: Acls, move: MoveContext, a: Path, u: User)
    requires Performs(acls, move) && Dir(move.source) != Dir(move.destination)
    requires a in Ancestors(move.destination, Roots(move.layout)) && u in acls[move.source] && u !in Apart(move)
    ensures CanRepair(Moved(acls, move.source, move.destination), move)
    ensures Permits(Held(Repaired(Moved(acls, move.source, move.destination), move, false, false), a, u), Read)
  {
    EndingsCanStart(acls, move, false);
    ReachableExactly(BeforeEnding(acls, move, false), move);
  }

  // ----- In a navigable state -----

  /** Where everybody can climb, whoever sees part of what is moved is on the list of its top. */
  lemma NavigableIsListed(acls: Acls, move: MoveContext)
    requires MovesSharedThing(acls, move) && Navigable(acls, Roots(move.layout), Apart(move))
    ensures ListedOnTop(acls, move)
  {
    forall p, u | p in acls && move.source <= p && u !in Apart(move) && Sees(acls, p, u)
      ensures u in acls[move.source]
    {
      if p != move.source {
        InAncestors(p, Roots(move.layout), move.source);
        forall i | |move.source| <= i < |p| ensures p[..i] !in Roots(move.layout) {
          assert move.source <= p[..i];
        }
      }
    }
  }

  /** Main result: from a navigable state the moved thing ends up visible to exactly the destination
      collection's readers when that inherits, to nobody when only the source did, and otherwise to whoever
      it arrived with, each of whom can reach it. */
  lemma {:induction false} RepairOutcomeInside(acls: Acls, move: MoveContext, sourceInherits: bool, destinationInherits: bool)
    requires MovesSharedThing(acls, move) && Dir(move.source) != Dir(move.destination)
    requires Navigable(acls, Roots(move.layout), Apart(move))
    ensures CanRepair(Moved(acls, move.source, move.destination), move)
    ensures var now, top := Repaired(Moved(acls, move.source, move.destination), move, sourceInherits, destinationInherits),
                            move.destination;
            && (destinationInherits ==> EverybodyHasParents(now, top, Apart(move)))
            && (sourceInherits && !destinationInherits ==> NobodySees(now, top, Apart(move)))
            && (!sourceInherits && !destinationInherits ==>
                  KeepsEveryList(Moved(acls, move.source, top), now, top) && CanBeReached(acls, now, move))
  {
    NavigableIsListed(acls, move);
    if destinationInherits {
      InheritedExactlyWhen(acls, move, sourceInherits);
    } else if sourceInherits {
      HiddenExactly(acls, move);
    } else {
      UninheritedKeeps(acls, move);
    }
  }
}
