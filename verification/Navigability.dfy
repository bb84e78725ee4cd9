/** What a move followed by its repair guarantees about who can see what. */
module Navigability {
  import opened Paths
  import opened Access
  import opened Moves
  import opened Permissions

  /** Where walks towards the root end: at the homes, and at the collection all trash lies under. */
  function Roots(layout: Layout): set<Path> { {layout.home, [layout.zone, "trash", "home"]} }

  /** The acting user, the service account and the administrators, whose access is not a share. */
  function Apart(move: MoveContext): set<User> { move.admins + {move.user, move.proxy} }

  /** Whoever sees something sees every collection above it, up to the walk roots. */
  ghost predicate Navigable(acls: Acls, roots: set<Path>, structural: set<User>) {
    forall p, u :: p in acls && u !in structural && Sees(acls, p, u) ==>
      forall a :: a in Ancestors(p, roots) ==> Sees(acls, a, u)
  }

  /** The same, one collection at a time. */
  ghost predicate StepNavigable(acls: Acls, roots: set<Path>, structural: set<User>) {
    forall p, u :: p in acls && u !in structural && Sees(acls, p, u) && Climbs(p, roots) ==>
      Sees(acls, Dir(p), u)
  }

  predicate Climbs(p: Path, roots: set<Path>) { 2 <= |Dir(p)| && Dir(p) !in roots }

  lemma {:induction false} SeesAllTheWayUp(acls: Acls, roots: set<Path>, structural: set<User>, p: Path, u: User)
    requires IsTree(acls.Keys) && StepNavigable(acls, roots, structural)
    requires p in acls && u !in structural && Sees(acls, p, u)
    ensures forall a :: a in Ancestors(p, roots) ==> Sees(acls, a, u)
    decreases |p|
  {
    if Climbs(p, roots) {
      SeesAllTheWayUp(acls, roots, structural, Dir(p), u);
    }
  }

  lemma NavigableIffStep(acls: Acls, roots: set<Path>, structural: set<User>)
    requires IsTree(acls.Keys)
    ensures Navigable(acls, roots, structural) <==> StepNavigable(acls, roots, structural)
  {
    if Navigable(acls, roots, structural) {
      forall p, u | p in acls && u !in structural && Sees(acls, p, u) && Climbs(p, roots)
        ensures Sees(acls, Dir(p), u)
      {
        assert Ancestors(p, roots)[0] == Dir(p);
      }
    }
    if StepNavigable(acls, roots, structural) {
      forall p, u | p in acls && u !in structural && Sees(acls, p, u)
        ensures forall a :: a in Ancestors(p, roots) ==> Sees(acls, a, u)
      {
        SeesAllTheWayUp(acls, roots, structural, p, u);
      }
    }
  }

  /** A move the store would perform. */
  ghost predicate Performs(acls: Acls, move: MoveContext) {
    && IsTree(acls.Keys)
    && move.source in acls && move.source != []
    && move.destination !in acls && move.destination != []
    && !(move.source <= move.destination) && Dir(move.destination) in acls
  }

  /** One the theorems about navigability speak about: of something that is no walk root, contains none and
      is not directly under the root. */
  ghost predicate MovesSharedThing(acls: Acls, move: MoveContext) {
    && Performs(acls, move) && 2 <= |move.source|
    && forall r :: r in Roots(move.layout) ==> !(move.source <= r)
  }

  lemma AfterMove(acls: Acls, move: MoveContext, q: Path)
    requires Performs(acls, move)
    ensures var from, to, now := move.source, move.destination, Moved(acls, move.source, move.destination);
            && (q in now <==> if to <= q then from + q[|to|..] in acls else q in acls && !(from <= q))
            && (q in now && to <= q ==> now[q] == acls[from + q[|to|..]])
            && (q in now && !(to <= q) ==> now[q] == acls[q])
  {
    MovedNode(acls.Keys, acls.Keys, move.source, move.destination, q);
  }

  /** What holds between the move and the end of its repair: outside the moved thing everybody
      can still climb, and inside it whoever sees anything sees the top. */
  ghost predicate ClimbsOutside(acls: Acls, top: Path, roots: set<Path>, structural: set<User>) {
    forall p, u :: p in acls && !(top <= p) && u !in structural && Sees(acls, p, u) && Climbs(p, roots) ==>
      Sees(acls, Dir(p), u)
  }

  ghost predicate ClimbsInside(acls: Acls, top: Path, structural: set<User>) {
    forall p, u :: p in acls && top < p && u !in structural && Sees(acls, p, u) ==> Sees(acls, Dir(p), u)
  }

  lemma {:induction false} SeesTheTop(acls: Acls, top: Path, structural: set<User>, p: Path, u: User)
    requires IsTree(acls.Keys) && ClimbsInside(acls, top, structural)
    requires p in acls && top <= p && u !in structural && Sees(acls, p, u)
    ensures Sees(acls, top, u)
    decreases |p|
  {
    if top != p {
      SeesTheTop(acls, top, structural, Dir(p), u);
    }
  }

  /** What a place lies in, spelled from any collection above it. */
  lemma DirFrom(from: Path, q: Path, n: nat)
    requires n < |q|
    ensures Dir(from + q[n..]) == from + Dir(q)[n..]
  {
    var a, b := Dir(from + q[n..]), from + Dir(q)[n..];
    assert |a| == |b| == |from| + |q| - n - 1;
    forall i | 0 <= i < |a| ensures a[i] == b[i] {
      if |from| <= i { assert a[i] == q[n..][i - |from|] == q[n + i - |from|] == b[i]; }
    }
  }

  /** Where a node's list and its parent's list came from. */
  lemma MovedParent(acls: Acls, move: MoveContext, q: Path)
    requires Performs(acls, move)
    requires q in Moved(acls, move.source, move.destination) && q != []
    ensures var from, to, now := move.source, move.destination, Moved(acls, move.source, move.destination);
            && Dir(q) in now
            && (to < q ==>
                  var p := from + q[|to|..];
                  p in acls && Dir(p) in acls && now[q] == acls[p] && now[Dir(q)] == acls[Dir(p)]
                  && from < p)
            && (to == q ==> now[q] == acls[from] && Dir(to) in acls && now[Dir(to)] == acls[Dir(to)])
            && (!(to <= q) ==> q in acls && Dir(q) in acls && now[q] == acls[q] && now[Dir(q)] == acls[Dir(q)])
  {
    var from, to := move.source, move.destination;
    AfterMove(acls, move, q);
    AfterMove(acls, move, Dir(q));
    if to < q {
      DirFrom(from, q, |to|);
    } else if q == to {
      assert from + q[|to|..] == from;
      assert !(to <= Dir(to)) && !(from <= Dir(to));
    } else {
      assert !(to <= Dir(q)) && !(from <= Dir(q)) && Dir(q) in acls;
    }
  }

  lemma MovedStaysClimbable(acls: Acls, move: MoveContext)
    requires MovesSharedThing(acls, move)
    requires StepNavigable(acls, Roots(move.layout), Apart(move))
    ensures var now := Moved(acls, move.source, move.destination);
            && IsTree(now.Keys)
            && CanRepair(now, move)
            && ClimbsOutside(now, move.destination, Roots(move.layout), Apart(move))
            && ClimbsInside(now, move.destination, Apart(move))
  {
    var from, to, now := move.source, move.destination, Moved(acls, move.source, move.destination);
    AfterMove(acls, move, to);
    assert from + to[|to|..] == from;
    forall q | q in now && q != [] ensures Dir(q) in now {
      MovedParent(acls, move, q);
    }
    forall q, u | q in now && to < q && u !in Apart(move) && Sees(now, q, u) ensures Sees(now, Dir(q), u) {
      MovedParent(acls, move, q);
      assert Climbs(from + q[|to|..], Roots(move.layout));
      assert Sees(acls, from + q[|to|..], u);
    }
    forall q, u | q in now && !(to <= q) && u !in Apart(move) && Sees(now, q, u)
               && Climbs(q, Roots(move.layout))
      ensures Sees(now, Dir(q), u)
    {
      MovedParent(acls, move, q);
      assert Sees(acls, q, u);
    }
  }

  // ----- Taking back obsolete read -----

  /** Whatever can be seen directly inside a collection whose read is taken back is itself one whose
      read is taken back. */
  lemma {:induction false} ObsoleteMeansNothingElseSeen(acls: Acls, chain: seq<Path>, u: User, gone: set<Path>, a: Path, c: Path)
    requires a in Obsolete(acls, chain, u, gone)
    requires c in acls && IsChild(c, a) && Sees(acls, c, u)
    ensures c in gone + Obsolete(acls, chain, u, gone)
    ensures a in chain && Held(acls, a, u) == Read
    decreases |chain|
  {
    if Held(acls, chain[0], u) != Read {
      ObsoleteMeansNothingElseSeen(acls, chain[1..], u, gone, a, c);
    } else if a != chain[0] {
      ObsoleteMeansNothingElseSeen(acls, chain[1..], u, gone + {chain[0]}, a, c);
    }
  }

  lemma {:induction false} ObsoleteIsReadOnChain(acls: Acls, chain: seq<Path>, u: User, gone: set<Path>, a: Path)
    requires a in Obsolete(acls, chain, u, gone)
    ensures a in chain && Held(acls, a, u) == Read
    decreases |chain|
  {
    if a != chain[0] || Held(acls, chain[0], u) != Read {
      ObsoleteIsReadOnChain(acls, chain[1..], u,
                            if Held(acls, chain[0], u) != Read then gone else gone + {chain[0]}, a);
    }
  }

  /** Cleaning up touches only read on collections above the source, and leaves nobody who sees
      something unable to climb from it. */
  lemma {:induction false} CleanupStaysClimbable(acls: Acls, move: MoveContext)
    requires IsTree(acls.Keys) && CanRepair(acls, move)
    requires !(move.destination <= Dir(move.source))
    requires ClimbsOutside(acls, move.destination, Roots(move.layout), Apart(move))
    requires ClimbsInside(acls, move.destination, Apart(move))
    ensures var now := CleanedUp(acls, move);
            && now.Keys == acls.Keys
            && ClimbsOutside(now, move.destination, Roots(move.layout), Apart(move))
            && ClimbsInside(now, move.destination, Apart(move))
            && forall p, u :: p in acls ==>
                 Held(now, p, u) == Held(acls, p, u)
                 || (p < move.source && u !in Apart(move) && Held(acls, p, u) == Read && u !in now[p])
  {
    var now, chain := CleanedUp(acls, move), Ancestors(move.source, move.CleanupStops());
    forall p, u | p in acls && Held(now, p, u) != Held(acls, p, u)
      ensures p in Obsolete(acls, chain, u, {}) && u !in Apart(move) && u !in now[p]
      ensures p < move.source && !(move.destination <= p) && Held(acls, p, u) == Read
    {
      ObsoleteIsReadOnChain(acls, chain, u, {}, p);
      InAncestors(move.source, move.CleanupStops(), p);
    }
    forall p, u | p in acls && !(move.destination <= p) && u !in Apart(move) && Sees(now, p, u)
               && Climbs(p, Roots(move.layout))
      ensures Sees(now, Dir(p), u)
    {
      if !Sees(now, Dir(p), u) {
        ObsoleteMeansNothingElseSeen(acls, chain, u, {}, Dir(p), p);
        ObsoleteIsReadOnChain(acls, chain, u, {}, p);
      }
    }
  }

  // ----- The four endings -----

  lemma ClearedExactly(acls: Acls, move: MoveContext)
    requires IsTree(acls.Keys) && CanRepair(acls, move) && ClimbsInside(acls, move.destination, Apart(move))
    ensures var now := Cleared(acls, move);
            && now.Keys == acls.Keys
            && (forall p, u :: p in acls && move.destination <= p && u !in Apart(move) ==> !Sees(now, p, u))
            && (forall p, u :: p in acls && (u in Apart(move) || !(move.destination <= p)) ==>
                  Entry(now, p, u) == Entry(acls, p, u))
  {
    forall p, u | p in acls && move.destination <= p && u !in Apart(move) && Sees(acls, p, u)
      ensures u in acls[move.destination]
    {
      SeesTheTop(acls, move.destination, Apart(move), p, u);
    }
  }

  lemma InheritedExactly(acls: Acls, move: MoveContext)
    requires IsTree(acls.Keys) && CanRepair(acls, move) && ClimbsInside(acls, move.destination, Apart(move))
    requires move.destination != []
    ensures var now := Inherited(Cleared(acls, move), move);
            && now.Keys == acls.Keys
            && (forall p, u :: p in acls && move.destination <= p && u !in Apart(move) ==>
                  Held(now, p, u) == Held(acls, Dir(move.destination), u))
            && (forall p, u :: p in acls && (u in Apart(move) || !(move.destination <= p)) ==>
                  Entry(now, p, u) == Entry(acls, p, u))
  {
    ClearedExactly(acls, move);
    assert Cleared(acls, move)[Dir(move.destination)] == acls[Dir(move.destination)];
  }

  lemma ReachableExactly(acls: Acls, move: MoveContext)
    requires IsTree(acls.Keys) && CanRepair(acls, move)
    ensures var now, above := Reachable(acls, move), Ancestors(move.destination, Roots(move.layout));
            && now.Keys == acls.Keys
            && (forall p, u :: p in acls && !(p in above && u in acls[move.destination] && u !in Apart(move)
                                              && Held(acls, p, u) !in {Write, Own}) ==>
                  Entry(now, p, u) == Entry(acls, p, u))
            && (forall p, u :: p in above && u in acls[move.destination] && u !in Apart(move)
                               && Held(acls, p, u) !in {Write, Own} ==>
                  Entry(now, p, u) == Listed(Read))
            && forall p :: p in above ==> p in acls && p < move.destination
  {
    forall p | p in Ancestors(move.destination, Roots(move.layout)) ensures p in acls && p < move.destination {
      InAncestors(move.destination, Roots(move.layout), p);
      TreeIsPrefixClosed(acls.Keys, move.destination, p);
    }
  }

  /** The walk towards the roots goes on from each place on it that is not at a root. */
  lemma WalkGoesOn(p: Path, roots: set<Path>, a: Path)
    requires (a == p || a in Ancestors(p, roots)) && Climbs(a, roots)
    ensures Dir(a) in Ancestors(p, roots)
  {
    if a == p {
      assert Dir(a) == Ancestors(p, roots)[0];
    } else {
      InAncestors(p, roots, a);
      InAncestors(p, roots, Dir(a));
      assert Dir(a) == p[..|a| - 1];
    }
  }

  lemma {:induction false} ReachableIsNavigable(acls: Acls, move: MoveContext)
    requires IsTree(acls.Keys) && CanRepair(acls, move)
    requires ClimbsOutside(acls, move.destination, Roots(move.layout), Apart(move))
    requires ClimbsInside(acls, move.destination, Apart(move))
    ensures StepNavigable(Reachable(acls, move), Roots(move.layout), Apart(move))
  {
    forall p, u | p in Reachable(acls, move) && u !in Apart(move) && Sees(Reachable(acls, move), p, u)
                  && Climbs(p, Roots(move.layout))
      ensures Sees(Reachable(acls, move), Dir(p), u)
    {
      ReachableClimbs(acls, move, p, u);
    }
  }

  lemma ReachableClimbs(acls: Acls, move: MoveContext, p: Path, u: User)
    requires IsTree(acls.Keys) && CanRepair(acls, move)
    requires ClimbsOutside(acls, move.destination, Roots(move.layout), Apart(move))
    requires ClimbsInside(acls, move.destination, Apart(move))
    requires p in acls && u !in Apart(move) && Sees(Reachable(acls, move), p, u)
    requires Climbs(p, Roots(move.layout))
    ensures Sees(Reachable(acls, move), Dir(p), u)
  {
    var roots := Roots(move.layout);
    ReachableExactly(acls, move);
    if p == move.destination || (p in Ancestors(move.destination, roots) && !Sees(acls, p, u)) {
      WalkGoesOn(move.destination, roots, p);
    }
  }

  lemma {:induction false} RenameStaysNavigable(acls: Acls, move: MoveContext)
    requires MovesSharedThing(acls, move) && Dir(move.source) == Dir(move.destination)
    requires StepNavigable(acls, Roots(move.layout), Apart(move))
    ensures StepNavigable(Moved(acls, move.source, move.destination), Roots(move.layout), Apart(move))
  {
    MovedStaysClimbable(acls, move);
    var roots, now := Roots(move.layout), Moved(acls, move.source, move.destination);
    forall p, u | p in now && u !in Apart(move) && Sees(now, p, u) && Climbs(p, roots)
      ensures Sees(now, Dir(p), u)
    {
      if p == move.destination {
        MovedParent(acls, move, p);
        assert Sees(acls, move.source, u) && Climbs(move.source, roots);
      }
    }
  }

  lemma {:induction false} InheritedIsNavigable(acls: Acls, move: MoveContext)
    requires IsTree(acls.Keys) && CanRepair(acls, move) && move.destination != []
    requires ClimbsOutside(acls, move.destination, Roots(move.layout), Apart(move))
    requires ClimbsInside(acls, move.destination, Apart(move))
    ensures StepNavigable(Inherited(Cleared(acls, move), move), Roots(move.layout), Apart(move))
  {
    InheritedExactly(acls, move);
    var now := Inherited(Cleared(acls, move), move);
    forall p, u | p in now && u !in Apart(move) && Sees(now, p, u) && Climbs(p, Roots(move.layout))
      ensures Sees(now, Dir(p), u)
    {
      assert p in acls && Dir(p) in acls;
      if p == move.destination {
        assert !(move.destination <= Dir(p));
        assert Entry(now, Dir(p), u) == Entry(acls, Dir(p), u);
      } else if !(move.destination <= p) {
        assert !(move.destination <= Dir(p));
        assert Entry(now, p, u) == Entry(acls, p, u) && Entry(now, Dir(p), u) == Entry(acls, Dir(p), u);
      }
    }
  }

  lemma {:induction false} ClearedIsNavigable(acls: Acls, move: MoveContext)
    requires IsTree(acls.Keys) && CanRepair(acls, move) && move.destination != []
    requires ClimbsOutside(acls, move.destination, Roots(move.layout), Apart(move))
    requires ClimbsInside(acls, move.destination, Apart(move))
    ensures StepNavigable(Cleared(acls, move), Roots(move.layout), Apart(move))
  {
    ClearedExactly(acls, move);
    var now := Cleared(acls, move);
    forall p, u | p in now && u !in Apart(move) && Sees(now, p, u) && Climbs(p, Roots(move.layout))
      ensures Sees(now, Dir(p), u)
    {
      assert !(move.destination <= p) && !(move.destination <= Dir(p)) && Dir(p) in acls;
      assert Entry(now, p, u) == Entry(acls, p, u) && Entry(now, Dir(p), u) == Entry(acls, Dir(p), u);
    }
  }

  /** The lists the endings start from: after the move, and after the cleanup when there is one. */
  ghost function BeforeEnding(acls: Acls, move: MoveContext, sourceInherits: bool): Acls {
    var moved := Moved(acls, move.source, move.destination);
    if sourceInherits then moved else CleanedUp(moved, move)
  }

  lemma EndingsStartClimbable(acls: Acls, move: MoveContext, sourceInherits: bool)
    requires MovesSharedThing(acls, move)
    requires StepNavigable(acls, Roots(move.layout), Apart(move))
    ensures var now := BeforeEnding(acls, move, sourceInherits);
            && IsTree(now.Keys) && CanRepair(now, move)
            && ClimbsOutside(now, move.destination, Roots(move.layout), Apart(move))
            && ClimbsInside(now, move.destination, Apart(move))
  {
    MovedStaysClimbable(acls, move);
    if !sourceInherits {
      if move.destination <= Dir(move.source) {
        TreeIsPrefixClosed(acls.Keys, move.source, move.destination);
      } else {
        CleanupStaysClimbable(Moved(acls, move.source, move.destination), move);
      }
    }
  }

  /** Main result: if everybody could climb from whatever they see before a move, everybody can
      after it and its repair, whichever of the two collections inherit. */
  lemma {:induction false} MoveAndRepairKeepNavigable(acls: Acls, move: MoveContext, sourceInherits: bool, destinationInherits: bool)
    requires MovesSharedThing(acls, move)
    requires Navigable(acls, Roots(move.layout), Apart(move))
    ensures var moved := Moved(acls, move.source, move.destination);
            && CanRepair(moved, move)
            && Navigable(Repaired(moved, move, sourceInherits, destinationInherits),
                         Roots(move.layout), Apart(move))
  {
    var roots, structural := Roots(move.layout), Apart(move);
    NavigableIffStep(acls, roots, structural);
    MovedStaysClimbable(acls, move);
    EndingsStartClimbable(acls, move, sourceInherits);
    if Dir(move.source) == Dir(move.destination) {
      RenameStaysNavigable(acls, move);
    } else if destinationInherits {
      InheritedIsNavigable(BeforeEnding(acls, move, sourceInherits), move);
    } else if sourceInherits {
      ClearedIsNavigable(BeforeEnding(acls, move, sourceInherits), move);
    } else {
      ReachableIsNavigable(BeforeEnding(acls, move, sourceInherits), move);
    }
    NavigableIffStep(Repaired(Moved(acls, move.source, move.destination), move, sourceInherits, destinationInherits),
                     roots, structural);
  }

  // ----- When read on a collection is taken back -----

  /** A walk upwards through collections that `u` sees, each directly inside the next. */
  ghost predicate IsSeenWalk(acls: Acls, chain: seq<Path>, u: User) {
    && (forall j :: 0 <= j < |chain| ==> chain[j] in acls && Sees(acls, chain[j], u))
    && (forall j :: 0 < j < |chain| ==> IsChild(chain[j - 1], chain[j]))
    && Distinct(chain)
  }

  /** `u` merely reads `chain[j]`, and sees nothing directly inside it but what the walk came from. */
  ghost predicate LedNowhereElse(acls: Acls, chain: seq<Path>, u: User, j: nat)
    requires j < |chain|
  {
    && Held(acls, chain[j], u) == Read
    && forall c :: c in acls && IsChild(c, chain[j]) && Sees(acls, c, u) ==> j > 0 && c == chain[j - 1]
  }

  function FirstOf(chain: seq<Path>, i: nat): set<Path>
    requires i <= |chain|
  {
    set p | p in chain[..i]
  }

  lemma FirstOfOneMore(chain: seq<Path>, i: nat)
    requires i < |chain|
    ensures FirstOf(chain, i + 1) == FirstOf(chain, i) + {chain[i]}
  {
    assert chain[..i + 1] == chain[..i] + [chain[i]];
  }

  /** Above a collection that is seen and stays, everything stays. */
  lemma {:induction false} NothingObsoleteAbove(acls: Acls, chain: seq<Path>, u: User, i: nat, gone: set<Path>)
    requires IsSeenWalk(acls, chain, u)
    requires 0 < i <= |chain| && forall g :: g in gone ==> g in FirstOf(chain, i - 1)
    ensures Obsolete(acls, chain[i..], u, gone) == {}
    decreases |chain| - i
  {
    assert chain[i - 1] !in gone;
    if i < |chain| {
      assert chain[i..][0] == chain[i] && chain[i..][1..] == chain[i + 1..];
      if Held(acls, chain[i], u) == Read {
        assert chain[i - 1] in acls && IsChild(chain[i - 1], chain[i]) && chain[i - 1] !in gone;
      } else {
        FirstOfOneMore(chain, i - 1);
        NothingObsoleteAbove(acls, chain, u, i + 1, gone);
      }
    }
  }

  lemma LastStepOnly(acls: Acls, chain: seq<Path>, u: User, i: nat)
    requires IsSeenWalk(acls, chain, u) && i < |chain|
    ensures LedNowhereElse(acls, chain, u, i)
       <==> Held(acls, chain[i], u) == Read && !HoldsReadable(acls, chain[i], u, FirstOf(chain, i))
  {
    forall c | IsChild(c, chain[i]) && c in FirstOf(chain, i) ensures i > 0 && c == chain[i - 1] {
      var j :| 0 <= j < i && chain[j] == c;
      assert IsChild(chain[j + 1 - 1], chain[j + 1]);
    }
    if i > 0 { assert chain[i - 1] == chain[..i][i - 1]; }
  }

  lemma ObsoleteStep(acls: Acls, chain: seq<Path>, u: User, i: nat)
    requires IsSeenWalk(acls, chain, u) && i < |chain|
    ensures Obsolete(acls, chain[i..], u, FirstOf(chain, i))
         == if LedNowhereElse(acls, chain, u, i)
            then {chain[i]} + Obsolete(acls, chain[i + 1..], u, FirstOf(chain, i + 1)) else {}
  {
    assert chain[i..][0] == chain[i] && chain[i..][1..] == chain[i + 1..];
    LastStepOnly(acls, chain, u, i);
    FirstOfOneMore(chain, i);
    if Held(acls, chain[i], u) != Read {
      NothingObsoleteAbove(acls, chain, u, i + 1, FirstOf(chain, i));
    }
  }

  lemma {:induction false} ObsoleteFrom(acls: Acls, chain: seq<Path>, u: User, i: nat, k: nat)
    requires IsSeenWalk(acls, chain, u) && i <= k < |chain|
    ensures chain[k] in Obsolete(acls, chain[i..], u, FirstOf(chain, i))
       <==> forall j :: i <= j <= k ==> LedNowhereElse(acls, chain, u, j)
    decreases |chain| - i
  {
    ObsoleteStep(acls, chain, u, i);
    if i < k {
      ObsoleteFrom(acls, chain, u, i + 1, k);
      assert chain[k] != chain[i];
    }
  }

  /** Main result: read on a collection above the source is taken back exactly when it and all the
      read below it led only to the thing that moved away. */
  lemma TakenBackExactly(acls: Acls, p: Path, stops: set<Path>, u: User, k: nat)
    requires k < |Ancestors(p, stops)|
    requires forall a :: a in Ancestors(p, stops) ==> a in acls && Sees(acls, a, u)
    ensures Ancestors(p, stops)[k] in Obsolete(acls, Ancestors(p, stops), u, {})
       <==> forall j :: 0 <= j <= k ==> LedNowhereElse(acls, Ancestors(p, stops), u, j)
  {
    var chain := Ancestors(p, stops);
    AncestorsDistinct(p, stops);
    forall j | 0 < j < |chain| ensures IsChild(chain[j - 1], chain[j]) {
      AncestorAt(p, stops, j);
    }
    assert chain[0..] == chain && FirstOf(chain, 0) == {};
    ObsoleteFrom(acls, chain, u, 0, k);
  }
}
