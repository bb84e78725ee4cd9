/** Paths as the strings the service handles, and how those agree with component sequences. */
module GoPaths {
  import Paths

  function TrimRight(s: string): (r: string)
    ensures r <= s && (r == "" || r[|r| - 1] != '/')
    ensures forall i :: |r| <= i < |s| ==> s[i] == '/'
  {
    if s != "" && s[|s| - 1] == '/' then TrimRight(s[..|s| - 1]) else s
  }

  predicate HasPrefix(s: string, prefix: string) { prefix <= s }

  /** `p` is `base` or lies under it. */
  predicate IsWithin(p: string, base: string) {
    var p', base' := TrimRight(p), TrimRight(base);
    p' == base' || HasPrefix(p', base' + "/")
  }

  /** One more character in front of what has been split. */
  function Prepend(c: char, parts: seq<string>): (r: seq<string>)
    requires parts != []
    ensures r != []
  {
    if c == '/' then [""] + parts else [[c] + parts[0]] + parts[1..]
  }

  /** The pieces between slashes: never none. */
  function Split(s: string): (parts: seq<string>)
    ensures parts != []
  {
    if s == "" then [""] else Prepend(s[0], Split(s[1..]))
  }

  function Joined(parts: seq<string>): string {
    if parts == [] then "" else if |parts| == 1 then parts[0] else parts[0] + "/" + Joined(parts[1..])
  }

  /** Go's path cleaning, one component at a time: empty and `.` components go, and `..` takes the one
      before it. */
  function Absorb(part: string, rooted: bool, out: seq<string>): seq<string> {
    if part == "" || part == "." then out
    else if part != ".." then out + [part]
    else if out != [] && out[|out| - 1] != ".." then out[..|out| - 1]
    else if rooted then out
    else out + [".."]
  }

  function Resolve(parts: seq<string>, rooted: bool, out: seq<string>): seq<string>
    decreases parts
  {
    if parts == [] then out else Resolve(parts[1..], rooted, Absorb(parts[0], rooted, out))
  }

  function Clean(s: string): string {
    var rooted := s != "" && s[0] == '/';
    var parts := Resolve(Split(s), rooted, []);
    if rooted then "/" + Joined(parts) else if parts == [] then "." else Joined(parts)
  }

  /** Go's two-element join: empty elements are ignored. */
  function Join(a: string, b: string): string {
    if a == "" && b == "" then ""
    else if a == "" then Clean(b)
    else if b == "" then Clean(a)
    else Clean(a + "/" + b)
  }

  function LastSlash(s: string): (end: nat)
    ensures end <= |s|
  {
    if s == "" || s[|s| - 1] == '/' then |s| else LastSlash(s[..|s| - 1])
  }

  function Base(p: string): string {
    var t := TrimRight(p);
    if t == "" then "." else t[LastSlash(t)..]
  }

  function Dir(p: string): string {
    var t := TrimRight(p);
    Clean(t[..LastSlash(t)])
  }

  // ----- Splitting and joining -----

  predicate NoSlash(s: string) { '/' !in s }

  lemma PrependAppends(c: char, a: seq<string>, b: seq<string>)
    requires a != []
    ensures Prepend(c, a + b) == Prepend(c, a) + b
  {
    assert (a + b)[1..] == a[1..] + b;
  }

  lemma {:induction false} SplitsAtSlash(x: string, y: string)
    ensures Split(x + "/" + y) == Split(x) + Split(y)
    decreases x
  {
    if x == "" {
      assert (x + "/" + y)[1..] == y;
    } else {
      SplitsAtSlash(x[1..], y);
      assert (x + "/" + y)[1..] == x[1..] + "/" + y;
      PrependAppends(x[0], Split(x[1..]), Split(y));
    }
  }

  lemma {:induction false} SplitAlone(x: string)
    requires NoSlash(x)
    ensures Split(x) == [x]
    decreases x
  {
    if x != "" {
      assert x[0] in x && NoSlash(x[1..]);
      SplitAlone(x[1..]);
      assert Prepend(x[0], [x[1..]]) == [[x[0]] + x[1..]];
      assert [x[0]] + x[1..] == x;
    }
  }

  lemma {:induction false} SplitJoined(parts: seq<string>)
    requires parts != [] && forall part :: part in parts ==> NoSlash(part)
    ensures Split(Joined(parts)) == parts
    decreases parts
  {
    SplitAlone(parts[0]);
    if |parts| > 1 {
      SplitJoined(parts[1..]);
      SplitsAtSlash(parts[0], Joined(parts[1..]));
    }
  }

  lemma {:induction false} JoinedSplit(s: string)
    ensures Joined(Split(s)) == s
    decreases s
  {
    if s != "" {
      JoinedSplit(s[1..]);
    }
  }

  lemma {:induction false} JoinedAppends(a: seq<string>, b: seq<string>)
    requires a != [] && b != []
    ensures Joined(a + b) == Joined(a) + "/" + Joined(b)
    decreases a
  {
    assert (a + b)[1..] == a[1..] + b;
    if |a| > 1 {
      JoinedAppends(a[1..], b);
    }
  }

  /** Starting with another string and a slash is having its components as a proper prefix. */
  lemma PrefixExactly(p: string, base: string)
    ensures HasPrefix(p, base + "/") <==> Split(base) < Split(p)
  {
    if HasPrefix(p, base + "/") {
      var rest := p[|base| + 1..];
      assert p == base + "/" + rest;
      SplitsAtSlash(base, rest);
    }
    if Split(base) < Split(p) {
      PrefixOfJoined(p, base);
    }
  }

  lemma PrefixOfJoined(p: string, base: string)
    requires Split(base) < Split(p)
    ensures HasPrefix(p, base + "/")
  {
    var rest := Split(p)[|Split(base)|..];
    assert Split(p) == Split(base) + rest;
    JoinedAppends(Split(base), rest);
    JoinedSplit(p);
    JoinedSplit(base);
    assert p == base + "/" + Joined(rest);
  }

  /** Main result: containment by string prefix is containment by components, for any two strings. */
  lemma WithinExactly(p: string, base: string)
    ensures IsWithin(p, base) <==> Split(TrimRight(base)) <= Split(TrimRight(p))
  {
    SamePieces(TrimRight(p), TrimRight(base));
    PrefixExactly(TrimRight(p), TrimRight(base));
  }

  lemma SamePieces(a: string, b: string)
    ensures Split(a) == Split(b) <==> a == b
  {
    JoinedSplit(a);
    JoinedSplit(b);
  }

  // ----- Absolute paths in canonical form -----

  /** A name a collection or file can have. */
  predicate IsName(n: string) { n != "" && n != "." && n != ".." && NoSlash(n) }

  predicate IsPath(p: Paths.Path) { forall n :: n in p ==> IsName(n) }

  /** The one canonical spelling of a path. */
  function Spelled(p: Paths.Path): string { "/" + Joined(p) }

  lemma {:induction false} JoinedEnds(p: Paths.Path)
    requires IsPath(p) && p != []
    ensures Joined(p) != "" && Joined(p)[|Joined(p)| - 1] != '/'
    decreases p
  {
    assert p[0] in p;
    if |p| > 1 {
      assert IsPath(p[1..]);
      JoinedEnds(p[1..]);
    }
  }

  /** What is left between slashes after the leading one. */
  function Pieces(p: Paths.Path): (r: seq<string>)
    ensures r != []
  {
    if p == [] then [""] else p
  }

  lemma SpelledParts(p: Paths.Path)
    requires IsPath(p)
    ensures Split(Spelled(p)) == [""] + Pieces(p)
    ensures TrimRight(Spelled(p)) == if p == [] then "" else Spelled(p)
  {
    if p == [] {
      assert "/"[..0] == "" && Split("") == [""] && "/"[1..] == "";
    } else {
      JoinedEnds(p);
      SplitJoined(p);
      SplitsAtSlash("", Joined(p));
      assert "" + "/" + Joined(p) == Spelled(p);
    }
  }

  lemma PiecesOfRoot(p: Paths.Path)
    requires IsPath(p)
    ensures Pieces(p)[0] == "" <==> p == []
  {
    if p != [] {
      assert p[0] in p && IsName(p[0]);
    }
  }

  lemma SpelledIsInjective(p: Paths.Path, q: Paths.Path)
    requires IsPath(p) && IsPath(q) && Spelled(p) == Spelled(q)
    ensures p == q
  {
    SpelledParts(p);
    SpelledParts(q);
    Behind(Pieces(p), Pieces(q));
    PiecesOfRoot(p);
    PiecesOfRoot(q);
  }

  lemma Behind(a: seq<string>, b: seq<string>)
    ensures [""] + a == [""] + b ==> a == b
    ensures [""] + a <= [""] + b <==> a <= b
  {
    var a', b' := [""] + a, [""] + b;
    assert a'[1..] == a && b'[1..] == b;
    if a <= b {
      assert b' == a' + b[|a|..];
    }
    if a' <= b' {
      assert b'[1..|a'|] == a'[1..];
    }
  }

  /** Cleaning a rooted string by its pieces. */
  lemma CleanRooted(s: string, pieces: seq<string>)
    requires s != "" && s[0] == '/' && Split(s) == [""] + pieces
    ensures Clean(s) == Spelled(Resolve(pieces, true, []))
  {
    ResolveAppends([""], pieces, true, []);
    ResolveOne("", true, []);
  }

  lemma ResolveOne(part: string, rooted: bool, out: seq<string>)
    ensures Resolve([part], rooted, out) == Absorb(part, rooted, out)
  {
    assert Resolve([], rooted, Absorb(part, rooted, out)) == Absorb(part, rooted, out);
  }

  lemma ResolvePieces(p: Paths.Path)
    requires IsPath(p)
    ensures Resolve(Pieces(p), true, []) == p
  {
    if p == [] { ResolveOne("", true, []); } else { ResolveNames(p, true, []); }
  }

  lemma {:induction false} ResolveNames(p: Paths.Path, rooted: bool, out: seq<string>)
    requires IsPath(p)
    ensures Resolve(p, rooted, out) == out + p
    decreases p
  {
    if p != [] {
      assert p[0] in p && IsPath(p[1..]);
      ResolveNames(p[1..], rooted, out + [p[0]]);
      assert out + [p[0]] + p[1..] == out + p;
    }
  }

  lemma CleanSpelled(p: Paths.Path)
    requires IsPath(p)
    ensures Clean(Spelled(p)) == Spelled(p)
  {
    SpelledParts(p);
    CleanRooted(Spelled(p), Pieces(p));
    ResolvePieces(p);
  }

  lemma {:induction false} ResolveRooted(parts: seq<string>, out: Paths.Path)
    requires IsPath(out) && forall part :: part in parts ==> NoSlash(part)
    ensures IsPath(Resolve(parts, true, out))
    decreases parts
  {
    if parts != [] {
      assert parts[0] in parts;
      if parts[0] == "" || parts[0] == "." {
        ResolveRooted(parts[1..], out);
      } else if parts[0] != ".." {
        ResolveRooted(parts[1..], out + [parts[0]]);
      } else if out != [] {
        assert out[|out| - 1] in out;
        ResolveRooted(parts[1..], out[..|out| - 1]);
      } else {
        ResolveRooted(parts[1..], out);
      }
    }
  }

  lemma {:induction false} SplitHasNoSlash(s: string)
    ensures forall part :: part in Split(s) ==> NoSlash(part)
    decreases s
  {
    if s != "" {
      SplitHasNoSlash(s[1..]);
      assert Split(s[1..])[0] in Split(s[1..]);
    }
  }

  /** Main result: cleaning any absolute path gives the canonical spelling of one path and no other, and
      cleaning again changes nothing. */
  lemma CleanIsCanonical(s: string) returns (p: Paths.Path)
    requires s != "" && s[0] == '/'
    ensures IsPath(p) && Clean(s) == Spelled(p) && Clean(Clean(s)) == Clean(s)
    ensures forall q :: IsPath(q) && Spelled(q) == Clean(s) ==> q == p
  {
    SplitHasNoSlash(s);
    p := Resolve(Split(s), true, []);
    ResolveRooted(Split(s), []);
    CleanSpelled(p);
    forall q | IsPath(q) && Spelled(q) == Clean(s) ensures q == p {
      SpelledIsInjective(p, q);
    }
  }

  /** Main result: which path that is, component by component: an empty component or a dot changes nothing, two
      dots leave the collection, and at the root stay there, and anything else is a name in it. */
  lemma CleanExactly(s: string, p: Paths.Path, part: string)
    requires s != "" && s[0] == '/' && IsPath(p) && Clean(s) == Spelled(p) && NoSlash(part)
    ensures Clean("/") == "/"
    ensures Clean(s + "/" + part)
         == Spelled(if part == "" || part == "." then p
                    else if part == ".." then (if p == [] then [] else p[..|p| - 1])
                    else p + [part])
  {
    CleanSpelled([]);
    SplitHasNoSlash(s);
    var q := Resolve(Split(s), true, []);
    ResolveRooted(Split(s), []);
    SpelledIsInjective(p, q);
    SplitsAtSlash(s, part);
    SplitAlone(part);
    ResolveAppends(Split(s), [part], true, []);
    ResolveOne(part, true, p);
    if p != [] { assert p[|p| - 1] in p; }
  }

  lemma {:induction false} LastSlashOf(x: string, y: string)
    requires NoSlash(y)
    ensures LastSlash(x + "/" + y) == |x| + 1
    decreases |y|
  {
    var s := x + "/" + y;
    if y != "" {
      assert y[|y| - 1] in y && s[|s| - 1] == y[|y| - 1];
      assert s[..|s| - 1] == x + "/" + y[..|y| - 1];
      LastSlashOf(x, y[..|y| - 1]);
    }
  }

  lemma SpelledStep(p: Paths.Path, n: string)
    ensures Spelled(p + [n]) == (if p == [] then "" else Spelled(p)) + "/" + n
  {
    if p != [] {
      JoinedAppends(p, [n]);
    } else {
      assert p + [n] == [n];
    }
  }

  lemma CleanTrailingSlash(p: Paths.Path)
    requires IsPath(p) && p != []
    ensures Clean(Spelled(p) + "/") == Spelled(p)
  {
    SpelledParts(p);
    SplitsAtSlash(Spelled(p), "");
    assert Spelled(p) + "/" == Spelled(p) + "/" + "";
    assert [""] + p + [""] == [""] + (p + [""]);
    CleanRooted(Spelled(p) + "/", p + [""]);
    ResolveAppends(p, [""], true, []);
    ResolvePieces(p);
    ResolveOne("", true, p);
  }

  lemma {:induction false} ResolveAppends(a: seq<string>, b: seq<string>, rooted: bool, out: seq<string>)
    ensures Resolve(a + b, rooted, out) == Resolve(b, rooted, Resolve(a, rooted, out))
    decreases a
  {
    if a == [] {
      assert a + b == b;
    } else {
      assert (a + b)[0] == a[0] && (a + b)[1..] == a[1..] + b;
      ResolveAppends(a[1..], b, rooted, Absorb(a[0], rooted, out));
    }
  }

  lemma JoinSpelled(p: Paths.Path, n: string)
    requires IsPath(p) && IsName(n)
    ensures Join(Spelled(p), n) == Spelled(p + [n])
  {
    SplitsAtSlash(Spelled(p), n);
    SplitAlone(n);
    SpelledParts(p);
    assert [""] + Pieces(p) + [n] == [""] + (Pieces(p) + [n]);
    CleanRooted(Spelled(p) + "/" + n, Pieces(p) + [n]);
    ResolveAppends(Pieces(p), [n], true, []);
    ResolvePieces(p);
    ResolveOne(n, true, p);
  }

  lemma WithinSpelled(p: Paths.Path, q: Paths.Path)
    requires IsPath(p) && IsPath(q)
    ensures IsWithin(Spelled(p), Spelled(q)) <==> q <= p
  {
    WithinExactly(Spelled(p), Spelled(q));
    SpelledParts(p);
    SpelledParts(q);
    Behind(q, p);
  }

  lemma BaseAndDirSpelled(p: Paths.Path, n: string)
    requires IsPath(p) && IsName(n)
    ensures Base(Spelled(p + [n])) == n && Dir(Spelled(p + [n])) == Spelled(p)
  {
    SpelledStep(p, n);
    assert IsPath(p + [n]);
    SpelledParts(p + [n]);
    var x := if p == [] then "" else Spelled(p);
    LastSlashOf(x, n);
    var t := x + "/" + n;
    assert t[|x| + 1..] == n && t[..|x| + 1] == x + "/";
    if p == [] {
      CleanSpelled([]);
      assert x + "/" == Spelled([]);
    } else {
      CleanTrailingSlash(p);
    }
  }

  /** Main result: on canonical spellings the string operations are the operations on components. */
  lemma SpelledOperations(p: Paths.Path, n: string, q: Paths.Path)
    requires IsPath(p) && IsName(n) && IsPath(q)
    ensures Join(Spelled(p), n) == Spelled(p + [n])
    ensures Base(Spelled(p + [n])) == n
    ensures Dir(Spelled(p + [n])) == Spelled(Paths.Dir(p + [n]))
    ensures IsWithin(Spelled(p), Spelled(q)) <==> Paths.IsWithin(p, q)
  {
    JoinSpelled(p, n);
    BaseAndDirSpelled(p, n);
    assert Paths.Dir(p + [n]) == p;
    WithinSpelled(p, q);
  }
}
