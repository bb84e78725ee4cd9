/** Collection paths of the data store, as sequences of components: `/zone/home/ann` is
    `["zone", "home", "ann"]` and the root `/` is the empty sequence. */
module Paths {

  type Name = string
  type Path = seq<Name>

  /** Where the zone keeps homes and trash. */
  datatype Layout = Layout(zone: Name, home: Path) {
    function UserHome(user: Name): Path { home + [user] }

    function TrashBase(): Path { [zone, "trash", "home"] }

    /** The collections no walk towards the root goes past. */
    function WalkRoots(): set<Path> { {home, TrashBase()} }

    predicate InTrash(p: Path) { IsWithin(p, TrashBase()) }
  }

  function Dir(p: Path): Path {
    if p == [] then [] else p[..|p| - 1]
  }

  predicate IsWithin(p: Path, base: Path) { base <= p }

  predicate IsChild(c: Path, p: Path) { c != [] && Dir(c) == p }

  /** The collections above `p`, nearest first, ending before the first one in `stops` and
      before anything directly under the root. */
  function Ancestors(p: Path, stops: set<Path>): (r: seq<Path>)
    decreases |p|
  {
    var q := Dir(p);
    if |q| < 2 || q in stops then [] else [q] + Ancestors(q, stops)
  }

  method AncestorsOf(p: Path, stops: set<Path>) returns (out: seq<Path>)
    ensures out == Ancestors(p, stops)
  {
    out := [];
    var current := Dir(p);
    while 2 <= |current| && current !in stops
      invariant Ancestors(p, stops)
             == out + (if |current| < 2 || current in stops then [] else [current] + Ancestors(current, stops))
      decreases |current|
    {
      out := out + [current];
      current := Dir(current);
    }
  }

  /** Membership in the walk, without the list: exactly the proper prefixes of at least two
      components that have no stop between themselves and `p`. */
  lemma {:induction false} InAncestors(p: Path, stops: set<Path>, a: Path)
    ensures a in Ancestors(p, stops)
       <==> a < p && 2 <= |a| && forall i :: |a| <= i < |p| ==> p[..i] !in stops
    decreases |p|
  {
    var q := Dir(p);
    if |q| < 2 {
    } else if q in stops {
      assert q == p[..|p| - 1];
    } else {
      InAncestors(q, stops, a);
      assert forall i :: 0 <= i <= |q| ==> q[..i] == p[..i];
      assert a < p ==> a == q || a < q;
      assert a == q ==> forall i :: |a| <= i < |p| ==> p[..i] == q;
      if a < p && forall i :: |a| <= i < |p| ==> p[..i] !in stops {
        assert forall i :: |a| <= i < |q| ==> q[..i] !in stops;
      }
      if a < q && forall i :: |a| <= i < |q| ==> q[..i] !in stops {
        forall i | |a| <= i < |p| ensures p[..i] !in stops {
          if i == |q| { assert p[..i] == q; } else { assert q[..i] == p[..i]; }
        }
      }
    }
  }

  lemma {:induction false} AncestorAt(p: Path, stops: set<Path>, k: nat)
    requires k < |Ancestors(p, stops)|
    ensures k < |p| && Ancestors(p, stops)[k] == p[..|p| - 1 - k]
    ensures k > 0 ==> IsChild(Ancestors(p, stops)[k - 1], Ancestors(p, stops)[k])
    decreases |p|
  {
    if k > 0 {
      AncestorAt(Dir(p), stops, k - 1);
      assert Ancestors(p, stops)[k] == Ancestors(Dir(p), stops)[k - 1];
      if k == 1 {
        assert Ancestors(p, stops)[0] == Dir(p);
      } else {
        assert Ancestors(p, stops)[k - 1] == Ancestors(Dir(p), stops)[k - 2];
      }
    }
  }
}
