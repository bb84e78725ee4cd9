/** Exactly what a share and its taking back change, in terms of the paths and the lists alone. */
module ShareOutcome {
  import opened Paths
  import opened Access
  import opened Permissions
  import opened Navigability
  import opened Cleanup
  import opened Sharing

  /** Above a shared path: short of the home it is in, which its first three components name. */
  predicate ShortOfHome(path: Path, p: Path) { p < path && (if 3 < |path| then 3 < |p| else 2 <= |p|) }

  predicate UptoHome(path: Path, p: Path) { ShortOfHome(path, p) || (3 < |path| && p == path[..3]) }

  lemma BetweenExactly(req: ShareRequest, p: Path)
    ensures p in req.Between() <==> ShortOfHome(req.path, p)
    ensures p in req.Between() || (p == req.Home() && !(req.path <= p)) <==> UptoHome(req.path, p)
  {
    InAncestors(req.path, req.Stops(), p);
    if p < req.path {
      NoStopBetween(p, req.path, req.Stops());
      assert req.path[..|p|] == p;
      if 3 < |req.path| { assert p <= req.path[..3] <==> |p| <= 3; }
    }
  }

  /** Main result: a share gives the sharee the level asked for at and below the path, and read on the
      collections above it as far as the home where they have none; nothing else changes. */
  lemma {:induction false} ShareExactly(acls: Acls, req: ShareRequest, p: Path, u: User)
    requires p in acls
    ensures p in Shared(acls, req)
    ensures u != req.sharee ==> Entry(Shared(acls, req), p, u) == Entry(acls, p, u)
    ensures u == req.sharee ==>
              Held(Shared(acls, req), p, u)
              == if req.path <= p then req.permission
                 else if UptoHome(req.path, p) && Held(acls, p, u) == None then Read
                 else Held(acls, p, u)
  {
    SharedExactly(acls, req, p, u);
    BetweenExactly(req, p);
  }

  /** If `u` merely reads `r`, everything they see directly in it is the shared path, or lies on the way to it
      and is merely read too. */
  ghost predicate LeadsOnlyToShared(acls: Acls, path: Path, r: Path, u: User) {
    Held(acls, r, u) == Read ==>
      forall c :: c in acls && IsChild(c, r) && Sees(acls, c, u) ==> c == path || (c < path && Held(acls, c, u) == Read)
  }

  lemma TakenAt(acls: Acls, req: ShareRequest, p: Path)
    ensures Held(Taken(acls, req), p, req.sharee) == if req.path <= p then None else Held(acls, p, req.sharee)
    ensures Taken(acls, req).Keys == acls.Keys
  {
  }

  lemma LeadsOnlyBefore(acls: Acls, req: ShareRequest, r: Path)
    requires r < req.path
    ensures LeadsOnlyTo(Taken(acls, req), req.path, r, req.sharee) <==> LeadsOnlyToShared(acls, req.path, r, req.sharee)
  {
    var now := Taken(acls, req);
    TakenAt(acls, req, r);
    forall c | c in acls && IsChild(c, r)
      ensures Held(now, c, req.sharee) == if c == req.path then None else Held(acls, c, req.sharee)
    {
      TakenAt(acls, req, c);
    }
    assert now.Keys == acls.Keys;
  }

  /** Main result: taking a share back leaves the sharee nothing at and below the path, and takes read above
      it, short of the home, exactly where all that is read from there down leads only to the path; nothing
      else changes. */
  lemma {:induction false} UnshareExactly(acls: Acls, req: ShareRequest, p: Path, u: User)
    requires p in acls
    ensures p in Unshared(acls, req)
    ensures Entry(Unshared(acls, req), p, u)
         == if u != req.sharee then Entry(acls, p, u)
            else if req.path <= p then Unlisted
            else if && ShortOfHome(req.path, p) && Held(acls, p, u) == Read
                    && forall r :: p <= r && r < req.path ==> LeadsOnlyToShared(acls, req.path, r, u) then Unlisted
            else Entry(acls, p, u)
  {
    UnsharedExactly(acls, req, p, u);
    if u == req.sharee && !(req.path <= p) {
      BetweenExactly(req, p);
      TakenExactly(Taken(acls, req), req.path, req.Stops(), u, p);
      TakenAt(acls, req, p);
      forall r | p <= r && r < req.path
        ensures LeadsOnlyTo(Taken(acls, req), req.path, r, u) <==> LeadsOnlyToShared(acls, req.path, r, u)
      {
        LeadsOnlyBefore(acls, req, r);
      }
    }
  }
}
