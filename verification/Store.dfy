/** Access lists over the collection tree, and the part of the data store that reads and
    changes them. */
module Access {
  import opened Paths

  type User = string

  /** The levels the service names. A stored `None` is a catalog entry at some other iRODS
      level: it is listed, but counts as no access. */
  datatype Level = None | Read | Write | Own

  type Acl = map<User, Level>
  type Acls = map<Path, Acl>

  datatype Listed = Listed(level: Level) | Unlisted

  function Entry(acls: Acls, p: Path, u: User): Listed {
    if p in acls && u in acls[p] then Listed(acls[p][u]) else Unlisted
  }

  function Held(acls: Acls, p: Path, u: User): Level {
    if p in acls && u in acls[p] then acls[p][u] else None
  }

  predicate Sees(acls: Acls, p: Path, u: User) { Held(acls, p, u) != None }

  function Rank(level: Level): nat {
    match level case None => 0 case Read => 1 case Write => 2 case Own => 3
  }

  predicate Permits(held: Level, required: Level) {
    Rank(held) >= Rank(required) && held != None
  }

  function Put(acl: Acl, u: User, level: Level): Acl {
    if level == None then acl - {u} else acl[u := level]
  }

  /** What one access change does: the path alone, or with `recurse` everything under it. */
  function SetPerm(acls: Acls, p: Path, u: User, level: Level, recurse: bool): Acls {
    map q | q in acls :: if q == p || (recurse && p <= q) then Put(acls[q], u, level) else acls[q]
  }

  /** Where a path is after `from` is moved to `to`. */
  function MovedPath(p: Path, from: Path, to: Path): Path {
    if from <= p then to + p[|from|..] else p
  }

  function MovedSet(nodes: set<Path>, from: Path, to: Path): set<Path> {
    set p | p in nodes :: MovedPath(p, from, to)
  }

  /** Access lists travel with what they are on. */
  function Moved(acls: Acls, from: Path, to: Path): Acls {
    map q | q in MovedSet(acls.Keys, from, to) ::
      if to <= q && from + q[|to|..] in acls then acls[from + q[|to|..]] else Lookup(acls, q)
  }

  function Lookup(acls: Acls, p: Path): Acl {
    if p in acls then acls[p] else map[]
  }

  predicate CanMove(nodes: set<Path>, collections: set<Path>, from: Path, to: Path) {
    from in nodes && from != [] && to !in nodes && !(from <= to) && Dir(to) in collections
  }

  /** Every node but the root lies in a node. */
  ghost predicate IsTree(nodes: set<Path>) {
    forall p :: p in nodes && p != [] ==> Dir(p) in nodes
  }

  /** Somebody directly below `p`, not counting `except`, is visible to `u`. */
  ghost predicate HoldsReadable(acls: Acls, p: Path, u: User, except: set<Path>) {
    exists c :: c in acls && IsChild(c, p) && c !in except && Sees(acls, c, u)
  }

  /** Access lists agree entry by entry. */
  lemma SameAcls(a: Acls, b: Acls)
    requires a.Keys == b.Keys
    requires forall p, u :: p in a ==> Entry(a, p, u) == Entry(b, p, u)
    ensures a == b
  {
    forall p | p in a ensures a[p] == b[p] {
      forall u: User ensures u in a[p] <==> u in b[p] {
        assert Entry(a, p, u) == Entry(b, p, u);
      }
      forall u | u in a[p] ensures a[p][u] == b[p][u] {
        assert Entry(a, p, u) == Entry(b, p, u);
      }
    }
  }

  lemma {:induction false} TreeIsPrefixClosed(nodes: set<Path>, p: Path, base: Path)
    requires IsTree(nodes) && p in nodes && base <= p
    ensures base in nodes
    decreases |p|
  {
    if base != p {
      TreeIsPrefixClosed(nodes, Dir(p), base);
    }
  }
}

module Moves {
  import opened Paths
  import opened Access

  /** Each node after a move is either untouched or the image of exactly one moved node. */
  lemma {:induction false} MovedNode(nodes: set<Path>, some: set<Path>, from: Path, to: Path, q: Path)
    requires IsTree(nodes) && some <= nodes
    requires from in nodes && to !in nodes && !(from <= to)
    ensures q in MovedSet(some, from, to)
       <==> if to <= q then from + q[|to|..] in some else q in some && !(from <= q)
  {
    if q in MovedSet(some, from, to) {
      var p :| p in some && q == MovedPath(p, from, to);
      if from <= p {
        assert from + q[|to|..] == p;
      } else if to <= q {
        TreeIsPrefixClosed(nodes, q, to);
      }
    }
    if to <= q && from + q[|to|..] in some {
      assert MovedPath(from + q[|to|..], from, to) == q;
    }
    if !(to <= q) && q in some && !(from <= q) {
      assert MovedPath(q, from, to) == q;
    }
  }

  lemma {:induction false} MovedSubset(some: set<Path>, nodes: set<Path>, from: Path, to: Path)
    requires some <= nodes
    ensures MovedSet(some, from, to) <= MovedSet(nodes, from, to)
  {
  }

  lemma {:induction false} MoveKeepsTree(nodes: set<Path>, collections: set<Path>, from: Path, to: Path)
    requires IsTree(nodes) && [] in collections && collections <= nodes
    requires forall p :: p in nodes && p != [] ==> Dir(p) in collections
    requires CanMove(nodes, collections, from, to)
    ensures IsTree(MovedSet(nodes, from, to))
    ensures [] in MovedSet(collections, from, to)
    ensures MovedSet(collections, from, to) <= MovedSet(nodes, from, to)
    ensures forall p :: p in MovedSet(nodes, from, to) && p != [] ==> Dir(p) in MovedSet(collections, from, to)
  {
    assert MovedPath([], from, to) == [];
    forall q | q in MovedSet(nodes, from, to) && q != [] ensures Dir(q) in MovedSet(collections, from, to) {
      var p :| p in nodes && q == MovedPath(p, from, to);
      MovedDir(p, from, to);
      if p != from {
        assert Dir(p) in collections;
      } else {
        assert MovedPath(Dir(to), from, to) == Dir(to);
      }
    }
  }

  /** What a moved path lies in is what it lay in, moved; apart from the top of what moves. */
  lemma {:induction false} MovedDir(p: Path, from: Path, to: Path)
    requires from != []
    ensures p != from && p != [] ==> Dir(MovedPath(p, from, to)) == MovedPath(Dir(p), from, to)
    ensures p == from ==> MovedPath(p, from, to) == to
  {
    if p != from && from <= p {
      assert from <= Dir(p) && Dir(to + p[|from|..]) == to + Dir(p)[|from|..];
    }
  }
}

module Stores {
  import opened Paths
  import opened Access
  import opened Moves

  datatype AclEntry = AclEntry(user: User, level: Level)

  datatype Avu = Avu(attribute: string, value: string, unit: string)

  type Avus = map<Path, seq<Avu>>

  function AvusAt(avus: Avus, p: Path): seq<Avu> {
    if p in avus then avus[p] else []
  }

  /** Metadata travels with what it is on. */
  function MovedAvus(avus: Avus, from: Path, to: Path): Avus {
    map q | q in MovedSet(avus.Keys, from, to) ::
      if to <= q && from + q[|to|..] in avus then avus[from + q[|to|..]] else AvusAt(avus, q)
  }

  function Without(avus: seq<Avu>, attribute: string): seq<Avu> {
    if avus == [] then []
    else (if avus[0].attribute == attribute then [] else [avus[0]]) + Without(avus[1..], attribute)
  }

  /** Everything above `p`, and `p`. */
  function Upto(p: Path): set<Path> {
    set i | 0 <= i <= |p| :: p[..i]
  }

  /** `entries` is some ordering of the list `acl`. */
  ghost predicate Lists(entries: seq<AclEntry>, acl: Acl) {
    && (forall i :: 0 <= i < |entries| ==> entries[i].user in acl && acl[entries[i].user] == entries[i].level)
    && (forall u :: u in acl ==> exists i :: 0 <= i < |entries| && entries[i].user == u)
    && (forall i, j :: 0 <= i < j < |entries| ==> entries[i].user != entries[j].user)
  }

  function UsersOf(entries: seq<AclEntry>): set<User> {
    set i | 0 <= i < |entries| :: entries[i].user
  }

  function CollectionsUnder(collections: set<Path>, p: Path): set<Path> {
    set q | q in collections && p <= q
  }

  /** The data store as this service uses it. Every call answers from the current state. */
  class Store {
    var acls: Acls
    var inherits: set<Path>
    var collections: set<Path>
    var avus: Avus

    ghost predicate Valid()
      reads this
    {
      && [] in collections
      && IsTree(acls.Keys)
      && (forall p :: p in acls && p != [] ==> Dir(p) in collections)
      && inherits <= collections <= acls.Keys
      && avus.Keys <= acls.Keys
    }

    function ListOf(p: Path): Acl
      reads this
    {
      Lookup(acls, p)
    }

    /** A path's access list, in whatever order the catalog returns it. */
    method ACL(p: Path) returns (entries: seq<AclEntry>)
      ensures Lists(entries, ListOf(p))
    {
      var acl := ListOf(p);
      entries := [];
      var left := acl.Keys;
      while left != {}
        invariant left <= acl.Keys
        invariant forall i :: 0 <= i < |entries| ==>
                    && entries[i].user in acl && entries[i].user !in left
                    && acl[entries[i].user] == entries[i].level
        invariant forall u :: u in acl && u !in left ==> exists i :: 0 <= i < |entries| && entries[i].user == u
        invariant forall i, j :: 0 <= i < j < |entries| ==> entries[i].user != entries[j].user
      {
        var u :| u in left;
        ghost var before := entries;
        entries := entries + [AclEntry(u, acl[u])];
        assert entries[|before|].user == u && forall i :: 0 <= i < |before| ==> entries[i] == before[i];
        left := left - {u};
      }
    }

    /** A collection's direct members. */
    method Children(p: Path) returns (children: set<Path>)
      ensures forall c :: c in children <==> c in acls && IsChild(c, p)
    {
      children := set c | c in acls.Keys && IsChild(c, p);
    }

    method SetPermission(p: Path, u: User, level: Level, recurse: bool) returns (ok: bool)
      modifies this`acls
      ensures ok <==> p in old(acls)
      ensures acls == if ok then SetPerm(old(acls), p, u, level, recurse) else old(acls)
    {
      ok := p in acls;
      if ok {
        acls := SetPerm(acls, p, u, level, recurse);
      }
    }

    method Inherits(p: Path) returns (ok: bool, inheriting: bool)
      ensures ok <==> p in acls
      ensures inheriting <==> p in inherits
    {
      return p in acls, p in inherits;
    }

    /** Only collections have the flag; for anything else this does nothing. */
    method SetInherit(p: Path, inherit: bool)
      requires Valid()
      modifies this`inherits
      ensures Valid()
      ensures inherits == if p !in collections then old(inherits)
                          else if inherit then old(inherits) + CollectionsUnder(collections, p)
                          else old(inherits) - CollectionsUnder(collections, p)
    {
      if p in collections {
        if inherit {
          inherits := inherits + CollectionsUnder(collections, p);
        } else {
          inherits := inherits - CollectionsUnder(collections, p);
        }
      }
    }

    method Move(from: Path, to: Path) returns (ok: bool)
      requires Valid()
      modifies this
      ensures Valid()
      ensures ok <==> old(CanMove(acls.Keys, collections, from, to))
      ensures acls == if ok then Moved(old(acls), from, to) else old(acls)
      ensures inherits == if ok then MovedSet(old(inherits), from, to) else old(inherits)
      ensures collections == if ok then MovedSet(old(collections), from, to) else old(collections)
      ensures avus == if ok then MovedAvus(old(avus), from, to) else old(avus)
    {
      ok := CanMove(acls.Keys, collections, from, to);
      if ok {
        MovedSubset(inherits, collections, from, to);
        MovedSubset(avus.Keys, acls.Keys, from, to);
        MoveKeepsTree(acls.Keys, collections, from, to);
        acls := Moved(acls, from, to);
        inherits := MovedSet(inherits, from, to);
        collections := MovedSet(collections, from, to);
        avus := MovedAvus(avus, from, to);
      }
    }

    method PermissionOf(p: Path, u: User) returns (level: Level)
      ensures level == Held(acls, p, u)
    {
      var entries := ACL(p);
      for i := 0 to |entries|
        invariant forall j :: 0 <= j < i ==> entries[j].user != u
      {
        if entries[i].user == u {
          return entries[i].level;
        }
      }
      return None;
    }

    /** Whether a collection directly holds something a user can read. */
    method HoldsAnythingReadableBy(p: Path, u: User) returns (found: bool)
      ensures found <==> HoldsReadable(acls, p, u, {})
    {
      var children := Children(p);
      var left := children;
      while left != {}
        invariant left <= children
        invariant forall c :: c in children && c !in left ==> !Sees(acls, c, u)
      {
        var c :| c in left;
        left := left - {c};
        var level := PermissionOf(c, u);
        if level != None {
          assert c in acls && IsChild(c, p) && c !in {} && Sees(acls, c, u);
          return true;
        }
      }
      return false;
    }

    /** Replaces whatever the path carries under the same attribute. */
    method SetAVU(p: Path, avu: Avu) returns (ok: bool)
      requires Valid()
      modifies this`avus
      ensures Valid()
      ensures ok <==> p in acls
      ensures avus == if ok then old(avus)[p := Without(AvusAt(old(avus), p), avu.attribute) + [avu]] else old(avus)
    {
      ok := p in acls;
      if ok {
        avus := avus[p := Without(AvusAt(avus, p), avu.attribute) + [avu]];
      }
    }

    /** Creates a collection and whatever is missing above it. `given` is the access the server puts on a
        new collection, and `allowed` whether it lets the caller make one there. */
    method MakeDir(p: Path, given: Acl, allowed: bool) returns (ok: bool)
      requires Valid()
      modifies this`acls, this`collections
      ensures Valid()
      ensures ok <==> allowed && Upto(p) * old(acls.Keys) <= old(collections)
      ensures !ok ==> acls == old(acls) && collections == old(collections)
      ensures ok ==> collections == old(collections) + Upto(p)
      ensures ok ==> acls == WithNew(old(acls), Upto(p), given)
    {
      ok := allowed && Upto(p) * acls.Keys <= collections;
      if ok {
        UptoIsClosed(p);
        acls := WithNew(acls, Upto(p), given);
        collections := collections + Upto(p);
      }
    }
  }

  function WithNew(acls: Acls, places: set<Path>, given: Acl): Acls {
    map q | q in acls.Keys + places :: if q in acls then acls[q] else given
  }

  lemma {:induction false} UptoIsClosed(p: Path)
    ensures p in Upto(p) && [] in Upto(p)
    ensures forall q :: q in Upto(p) && q != [] ==> Dir(q) in Upto(p)
  {
    assert p[..|p|] == p && p[..0] == [];
    forall q | q in Upto(p) && q != [] ensures Dir(q) in Upto(p) {
      var i :| 0 <= i <= |p| && q == p[..i];
      assert Dir(q) == p[..i - 1];
    }
  }
}
