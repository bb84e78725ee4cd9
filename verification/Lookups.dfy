/** Lookups that share a bounded number of catalog slots, and never deadlock on them. */
module Slots {

  /** A value being computed: whether it takes a slot, and the earlier value it waits for, if any. */
  datatype Wait = Nothing | On(index: nat)

  datatype Phase = Queued | Holding | Done

  datatype Lookup = Lookup(isGroups: bool, needsSlot: bool, waits: Wait, phase: Phase)

  type Lookups = seq<Lookup>

  /** What is dispatched: an item or a batch of stats takes a slot and waits for the group ids; an access
      list takes a slot and waits for nothing; a stat takes no slot and waits for its item. The group ids
      wait for nothing, and whether they take a slot is the choice `slotted`: the service's is that they do
      not. */
  datatype Kind = Groups | Item(groups: nat) | Stats(groups: nat) | ACL | Stat(item: nat)

  function Of(kind: Kind, slotted: bool): Lookup {
    match kind
    case Groups => Lookup(true, slotted, Nothing, Queued)
    case Item(g) => Lookup(false, true, On(g), Queued)
    case Stats(g) => Lookup(false, true, On(g), Queued)
    case ACL => Lookup(false, true, Nothing, Queued)
    case Stat(i) => Lookup(false, false, On(i), Queued)
  }

  /** A dispatch names values made before it: group ids for an item, an item for a stat. */
  predicate Named(s: Lookups, kind: Kind) {
    match kind
    case Groups => true
    case Item(g) => g < |s| && s[g].isGroups
    case Stats(g) => g < |s| && s[g].isGroups
    case ACL => true
    case Stat(i) => i < |s|
  }

  function Used(s: Lookups): nat {
    if s == [] then 0
    else Used(s[..|s| - 1]) + if s[|s| - 1].needsSlot && s[|s| - 1].phase.Holding? then 1 else 0
  }

  predicate Ready(s: Lookups, i: nat)
    requires i < |s|
  {
    s[i].waits.Nothing? || (s[i].waits.index < |s| && s[s[i].waits.index].phase.Done?)
  }

  /** A lookup starts, taking a slot if it needs one; finds its row published already, or is cancelled; or
      finishes, with what it waited for. */
  datatype Step = Dispatch(kind: Kind) | Start(i: nat) | Skip(i: nat) | Finish(i: nat)

  predicate Enabled(s: Lookups, slots: nat, step: Step) {
    match step
    case Dispatch(kind) => Named(s, kind)
    case Start(i) => i < |s| && s[i].phase.Queued? && (s[i].needsSlot ==> Used(s) < slots)
    case Skip(i) => i < |s| && s[i].phase.Holding?
    case Finish(i) => i < |s| && s[i].phase.Holding? && Ready(s, i)
  }

  function Stepped(s: Lookups, slots: nat, slotted: bool, step: Step): Lookups
    requires Enabled(s, slots, step)
  {
    match step
    case Dispatch(kind) => s + [Of(kind, slotted)]
    case Start(i) => s[i := s[i].(phase := Holding)]
    case Skip(i) => s[i := s[i].(phase := Done)]
    case Finish(i) => s[i := s[i].(phase := Done)]
  }

  function Tried(s: Lookups, slots: nat, slotted: bool, step: Step): Lookups {
    if Enabled(s, slots, step) then Stepped(s, slots, slotted, step) else s
  }

  /** The lookups after some steps, each taken if it was enabled. */
  function After(slots: nat, slotted: bool, steps: seq<Step>): Lookups {
    if steps == [] then [] else Tried(After(slots, slotted, steps[..|steps| - 1]), slots, slotted, steps[|steps| - 1])
  }

  /** Waits go to earlier values, and whoever takes a slot waits for nothing but group ids, which need none
      and wait for nothing. */
  ghost predicate Disciplined(s: Lookups) {
    && (forall i :: 0 <= i < |s| && s[i].isGroups ==> !s[i].needsSlot && s[i].waits.Nothing?)
    && (forall i :: 0 <= i < |s| && s[i].waits.On? ==>
         s[i].waits.index < i && (s[i].needsSlot ==> s[s[i].waits.index].isGroups))
  }

  ghost predicate Inv(s: Lookups, slots: nat) { Disciplined(s) && Used(s) <= slots }

  lemma {:induction false} UsedAfter(s: Lookups, i: nat, phase: Phase)
    requires i < |s|
    ensures Used(s[i := s[i].(phase := phase)])
         == Used(s) - (if s[i].needsSlot && s[i].phase.Holding? then 1 else 0)
                    + (if s[i].needsSlot && phase.Holding? then 1 else 0)
  {
    var t := s[i := s[i].(phase := phase)];
    var last := |s| - 1;
    if i < last {
      UsedAfter(s[..last], i, phase);
      assert t[..last] == s[..last][i := s[..last][i].(phase := phase)];
    } else {
      assert t[..last] == s[..last];
    }
  }

  lemma DispatchKeepsInv(s: Lookups, slots: nat, kind: Kind)
    requires Inv(s, slots) && Named(s, kind)
    ensures Inv(s + [Of(kind, false)], slots)
  {
    var t := s + [Of(kind, false)];
    assert t[..|t| - 1] == s;
  }

  lemma MovingKeepsDiscipline(s: Lookups, i: nat, phase: Phase)
    requires Disciplined(s) && i < |s|
    ensures Disciplined(s[i := s[i].(phase := phase)])
  {
  }

  lemma StepKeepsInv(s: Lookups, slots: nat, step: Step)
    requires Inv(s, slots) && Enabled(s, slots, step)
    ensures Inv(Stepped(s, slots, false, step), slots)
  {
    match step
    case Dispatch(kind) => DispatchKeepsInv(s, slots, kind);
    case Start(i) =>
      UsedAfter(s, i, Holding);
      MovingKeepsDiscipline(s, i, Holding);
    case Skip(i) =>
      UsedAfter(s, i, Done);
      MovingKeepsDiscipline(s, i, Done);
    case Finish(i) =>
      UsedAfter(s, i, Done);
      MovingKeepsDiscipline(s, i, Done);
  }

  lemma {:induction false} RunsKeepInv(slots: nat, steps: seq<Step>)
    ensures Inv(After(slots, false, steps), slots)
  {
    if steps != [] {
      RunsKeepInv(slots, steps[..|steps| - 1]);
      var s, step := After(slots, false, steps[..|steps| - 1]), steps[|steps| - 1];
      if Enabled(s, slots, step) { StepKeepsInv(s, slots, step); }
    }
  }

  lemma {:induction false} HolderOfSlot(s: Lookups) returns (i: nat)
    requires 0 < Used(s)
    ensures i < |s| && s[i].needsSlot && s[i].phase.Holding?
  {
    var last := |s| - 1;
    if s[last].needsSlot && s[last].phase.Holding? {
      i := last;
    } else {
      i := HolderOfSlot(s[..last]);
    }
  }

  /** Something unfinished can move on its own, never by being cancelled: itself, what it waits for, or
      whoever holds the slots. */
  lemma {:induction false} SomebodyMoves(s: Lookups, slots: nat, i: nat) returns (step: Step)
    requires Inv(s, slots) && 0 < slots && i < |s| && !s[i].phase.Done?
    ensures Enabled(s, slots, step) && (step.Start? || step.Finish?)
    decreases if s[i].needsSlot then 0 else 1, i
  {
    if s[i].phase.Queued? {
      if !s[i].needsSlot || Used(s) < slots {
        step := Start(i);
      } else {
        var h := HolderOfSlot(s);
        if Ready(s, h) {
          step := Finish(h);
        } else {
          var g := s[h].waits.index;
          step := if s[g].phase.Queued? then Start(g) else Finish(g);
        }
      }
    } else if Ready(s, i) {
      step := Finish(i);
    } else if s[i].needsSlot {
      var g := s[i].waits.index;
      step := if s[g].phase.Queued? then Start(g) else Finish(g);
    } else {
      step := SomebodyMoves(s, slots, s[i].waits.index);
    }
  }

  /** Main result: with at least one slot, whatever has been dispatched and however it has run, some
      unfinished lookup can move. */
  lemma NoDeadlock(slots: nat, steps: seq<Step>, i: nat) returns (step: Step)
    requires 0 < slots && i < |After(slots, false, steps)| && !After(slots, false, steps)[i].phase.Done?
    ensures Enabled(After(slots, false, steps), slots, step) && (step.Start? || step.Finish?)
  {
    RunsKeepInv(slots, steps);
    step := SomebodyMoves(After(slots, false, steps), slots, i);
  }

  function Left(s: Lookups): nat {
    if s == [] then 0
    else Left(s[..|s| - 1]) + match s[|s| - 1].phase case Queued => 2 case Holding => 1 case Done => 0
  }

  lemma {:induction false} LeftAfter(s: Lookups, i: nat, phase: Phase)
    requires i < |s| && ((s[i].phase.Queued? && phase.Holding?) || (s[i].phase.Holding? && phase.Done?))
    ensures Left(s[i := s[i].(phase := phase)]) == Left(s) - 1
  {
    var t := s[i := s[i].(phase := phase)];
    var last := |s| - 1;
    if i < last {
      LeftAfter(s[..last], i, phase);
      assert t[..last] == s[..last][i := s[..last][i].(phase := phase)];
    } else {
      assert t[..last] == s[..last];
    }
  }

  /** Main result: every step but a dispatch brings the end nearer, so what has been dispatched all
      finishes. */
  lemma StepsBringTheEnd(s: Lookups, slots: nat, slotted: bool, step: Step)
    requires Enabled(s, slots, step) && !step.Dispatch?
    ensures Left(Stepped(s, slots, slotted, step)) == Left(s) - 1
  {
    match step
    case Start(i) => LeftAfter(s, i, Holding);
    case Skip(i) => LeftAfter(s, i, Done);
    case Finish(i) => LeftAfter(s, i, Done);
  }

  // ----- If the group ids took a slot -----

  /** The group ids still queued, and some items waiting for them of which the first few hold a slot. */
  function Crowd(items: nat, holding: nat): Lookups {
    if items == 0 then [Of(Groups, true)]
    else Crowd(items - 1, holding) + [Of(Item(0), true).(phase := if items <= holding then Holding else Queued)]
  }

  lemma {:induction false} CrowdAt(items: nat, holding: nat, i: nat)
    requires i <= items
    ensures |Crowd(items, holding)| == items + 1
    ensures Crowd(items, holding)[i]
         == if i == 0 then Of(Groups, true) else Of(Item(0), true).(phase := if i <= holding then Holding else Queued)
    decreases items
  {
    if 0 < items { CrowdAt(items - 1, holding, if i < items then i else 0); }
  }

  lemma {:induction false} CrowdUses(items: nat, holding: nat)
    ensures Used(Crowd(items, holding)) == if items < holding then items else holding
  {
    if 0 < items {
      CrowdUses(items - 1, holding);
      var s := Crowd(items, holding);
      assert s[..|s| - 1] == Crowd(items - 1, holding);
    } else {
      assert Used([]) == 0 && [Of(Groups, true)][..0] == [];
    }
  }

  lemma OneMore(slots: nat, steps: seq<Step>, step: Step)
    ensures After(slots, true, steps + [step]) == Tried(After(slots, true, steps), slots, true, step)
  {
    assert (steps + [step])[..|steps|] == steps;
  }

  lemma {:induction false} CrowdGathers(slots: nat, items: nat) returns (steps: seq<Step>)
    ensures After(slots, true, steps) == Crowd(items, 0)
  {
    if items == 0 {
      OneMore(slots, [], Dispatch(Groups));
      steps := [] + [Dispatch(Groups)];
    } else {
      var front := CrowdGathers(slots, items - 1);
      CrowdAt(items - 1, 0, 0);
      OneMore(slots, front, Dispatch(Item(0)));
      steps := front + [Dispatch(Item(0))];
    }
  }

  /** One more of the crowd starting. */
  lemma CrowdAdvances(items: nat, holding: nat)
    requires holding < items
    ensures |Crowd(items, holding)| == items + 1
    ensures var s := Crowd(items, holding);
            s[holding + 1 := s[holding + 1].(phase := Holding)] == Crowd(items, holding + 1)
  {
    var s := Crowd(items, holding);
    CrowdAt(items, holding, 0);
    CrowdAt(items, holding + 1, 0);
    var t := s[holding + 1 := s[holding + 1].(phase := Holding)];
    forall i | 0 <= i <= items ensures t[i] == Crowd(items, holding + 1)[i] {
      CrowdAt(items, holding, i);
      CrowdAt(items, holding + 1, i);
    }
  }

  lemma {:induction false} CrowdHolds(slots: nat, holding: nat) returns (steps: seq<Step>)
    requires holding <= slots
    ensures After(slots, true, steps) == Crowd(slots, holding)
  {
    if holding == 0 {
      steps := CrowdGathers(slots, slots);
    } else {
      var front := CrowdHolds(slots, holding - 1);
      CrowdAt(slots, holding - 1, holding);
      CrowdUses(slots, holding - 1);
      CrowdAdvances(slots, holding - 1);
      OneMore(slots, front, Start(holding));
      steps := front + [Start(holding)];
    }
  }

  /** Main result: were the group ids to take a slot, then however many slots there are some run fills them
      with items that wait for the ids for ever: nothing can start or finish. */
  lemma SlottedGroupsDeadlock(slots: nat) returns (steps: seq<Step>)
    ensures var s := After(slots, true, steps);
            && (exists i :: 0 <= i < |s| && !s[i].phase.Done?)
            && forall step :: Enabled(s, slots, step) ==> !step.Start? && !step.Finish?
  {
    steps := CrowdHolds(slots, slots);
    var s := After(slots, true, steps);
    CrowdUses(slots, slots);
    CrowdAt(slots, slots, 0);
    assert !s[0].phase.Done?;
    forall step | Enabled(s, slots, step) ensures !step.Start? && !step.Finish? {
      if step.Start? || step.Finish? { CrowdAt(slots, slots, step.i); }
    }
  }
}

/** What one request remembers about paths, and when that differs from asking again. */
module LookupCache {
  import opened GoPaths
  import Paths

  /** A catalog row, as opaque text: everything a stat reports comes from it. */
  type Row = string

  /** Catalog rows by path, as the requesting user sees them. */
  type Catalog = map<string, Row>

  datatype Found = Present(row: Row) | Missing

  datatype Answer = Found(found: Found) | Closed

  function Normalize(p: string): string { if p == "/" then p else TrimRight(p) }

  function At(catalog: Catalog, p: string): Found {
    if p in catalog then Present(catalog[p]) else Missing
  }

  /** Asking the catalog, with nothing remembered. */
  function Direct(catalog: Catalog, p: string): Found { At(catalog, Normalize(p)) }

  /** Main result: trailing slashes do not change what is asked about, and the root is asked about as it is. */
  lemma SlashesDoNotMatter(catalog: Catalog, p: string, q: string)
    requires p != "" && p[|p| - 1] != '/' && p <= q && forall i :: |p| <= i < |q| ==> q[i] == '/'
    ensures Direct(catalog, q) == if p in catalog then Present(catalog[p]) else Missing
    ensures Direct(catalog, "/") == if "/" in catalog then Present(catalog["/"]) else Missing
  {
    TrimmedTo(p, q);
  }

  lemma {:induction false} TrimmedTo(p: string, q: string)
    requires p != "" && p[|p| - 1] != '/' && p <= q && forall i :: |p| <= i < |q| ==> q[i] == '/'
    ensures TrimRight(q) == p
  {
    if p != q { TrimmedTo(p, q[..|q| - 1]); }
  }

  type Memo = map<string, Found>

  /** Everything remembered is what the catalog says. */
  ghost predicate Coherent(catalog: Catalog, memo: Memo, rows: Catalog) {
    && (forall p :: p in memo ==> memo[p] == At(catalog, p))
    && (forall p :: p in rows ==> Present(rows[p]) == At(catalog, p))
  }

  ghost predicate Remembers(memo: Memo, rows: Catalog, p: string) { p in memo || p in rows }

  /** What a lookup answers: what is remembered, else what was published, else what the catalog says. */
  function Recalled(catalog: Catalog, memo: Memo, rows: Catalog, p: string): Found {
    if p in memo then memo[p] else if p in rows then Present(rows[p]) else At(catalog, p)
  }

  /** Forgetting everything that changed keeps the rest right. */
  lemma {:induction false} ForgettingKeepsCoherent(before: Catalog, after: Catalog, memo: Memo, rows: Catalog,
                                                   forgotten: set<string>)
    requires Coherent(before, memo, rows)
    requires forall p :: p !in forgotten ==> At(after, p) == At(before, p)
    ensures Coherent(after, memo - forgotten, rows - forgotten)
  {
    forall p | p in rows && p !in forgotten ensures Present(rows[p]) == At(after, p) {
      assert At(after, p) == At(before, p);
    }
  }

  // ----- Writes that change more than the path they name -----

  /** The collections above a path. */
  function Above(p: string): set<string> {
    set i | 0 < i < |p| && p[i] == '/' :: p[..i]
  }

  lemma NoSlashBehind(x: string, n: string, i: nat)
    requires NoSlash(n) && i < |x + "/" + n| && (x + "/" + n)[i] == '/'
    ensures i <= |x|
  {
    assert forall j :: 0 <= j < |n| ==> n[j] in n && (x + "/" + n)[|x| + 1 + j] == n[j];
  }

  lemma AboveStep(x: string, n: string)
    requires NoSlash(n)
    ensures Above(x + "/" + n) == Above(x) + if x == "" then {} else {x}
  {
    var s := x + "/" + n;
    forall q | q in Above(s) ensures q in Above(x) + if x == "" then {} else {x} {
      var i :| 0 < i < |s| && s[i] == '/' && q == s[..i];
      NoSlashBehind(x, n, i);
      if i < |x| {
        assert x[i] == '/' && q == x[..i];
      } else {
        assert q == x;
      }
    }
    forall q | q in Above(x) ensures q in Above(s) {
      var i :| 0 < i < |x| && x[i] == '/' && q == x[..i];
      assert s[i] == '/' && q == s[..i];
    }
    if x != "" { assert s[|x|] == '/' && s[..|x|] == x; }
  }

  /** Main result: above a canonical path are exactly the collections it lies in, short of the root. */
  lemma {:induction false} AboveExactly(p: Paths.Path)
    requires IsPath(p)
    ensures Above(Spelled(p)) == set i | 0 < i < |p| :: Spelled(p[..i])
  {
    if p == [] {
      assert Above("/") == {};
    } else {
      var front, n := p[..|p| - 1], p[|p| - 1];
      assert p == front + [n] && n in p && IsName(n);
      forall m | m in front ensures IsName(m) { assert m in p; }
      AboveExactly(front);
      SpelledStep(front, n);
      AboveStep(if front == [] then "" else Spelled(front), n);
      if front == [] {
        assert Above("") == {};
      } else {
        assert p[..|front|] == front;
        assert forall i :: 0 < i < |front| ==> front[..i] == p[..i];
      }
      assert (set i | 0 < i < |p| :: Spelled(p[..i]))
          == (set i | 0 < i < |front| :: Spelled(front[..i])) + if front == [] then {} else {Spelled(front)};
    }
  }

  /** Below a path, not counting it. */
  predicate Below(q: string, p: string) { HasPrefix(q, p + "/") }

  /** What making a collection creates: it, and whatever is not there above it. `hidden` is what is there
      and the user cannot see. */
  function MadeBy(catalog: Catalog, hidden: set<string>, p: string): set<string> {
    (Above(p) + {p}) - catalog.Keys - hidden
  }

  function WithMade(catalog: Catalog, made: set<string>, given: Row): Catalog {
    map q | q in catalog.Keys + made :: if q in catalog then catalog[q] else given
  }

  function WithoutTree(catalog: Catalog, p: string): Catalog {
    map q | q in catalog && q != p && !Below(q, p) :: catalog[q]
  }

  /** Main result: making a collection, which forgets only the collection itself, leaves what is remembered
      right exactly when none of the collections it had to create above it was remembered as absent. */
  lemma {:induction false} MadeCoherentExactly(catalog: Catalog, hidden: set<string>, memo: Memo, rows: Catalog, p: string,
                                               given: Row)
    requires Coherent(catalog, memo, rows)
    ensures var made := MadeBy(catalog, hidden, p);
            Coherent(WithMade(catalog, made, given), memo - {p}, rows - {p})
            <==> forall a :: a in made && a != p ==> a !in memo
  {
    var made := MadeBy(catalog, hidden, p);
    var after := WithMade(catalog, made, given);
    forall a | a in made && a != p && a in memo ensures (memo - {p})[a] != At(after, a) {
      assert memo[a] == At(catalog, a) == Missing;
    }
    if forall a :: a in made && a != p ==> a !in memo {
      forall q | q in memo - {p} ensures (memo - {p})[q] == At(after, q) {
        assert memo[q] == At(catalog, q);
      }
      forall q | q in rows - {p} ensures Present((rows - {p})[q]) == At(after, q) {
        assert Present(rows[q]) == At(catalog, q);
      }
    }
  }

  /** Main result: removing a collection, which forgets only the collection itself, leaves what is
      remembered right exactly when nothing that was in it is remembered. */
  lemma {:induction false} RemovedCoherentExactly(catalog: Catalog, memo: Memo, rows: Catalog, p: string)
    requires Coherent(catalog, memo, rows)
    ensures Coherent(WithoutTree(catalog, p), memo - {p}, rows - {p})
       <==> forall q :: q in catalog && Below(q, p) ==> !Remembers(memo, rows, q)
  {
    var after := WithoutTree(catalog, p);
    forall q | q in catalog && Below(q, p) ensures q != p && At(after, q) == Missing != At(catalog, q) {
      assert |q| > |p|;
    }
    if forall q :: q in catalog && Below(q, p) ==> !Remembers(memo, rows, q) {
      forall q | q in memo - {p} ensures (memo - {p})[q] == At(after, q) {
        assert memo[q] == At(catalog, q);
      }
      forall q | q in rows - {p} ensures Present((rows - {p})[q]) == At(after, q) {
        assert Present(rows[q]) == At(catalog, q);
      }
    } else {
      var q :| q in catalog && Below(q, p) && Remembers(memo, rows, q);
      assert q in memo ==> (memo - {p})[q] == At(catalog, q);
      assert q in rows ==> Present((rows - {p})[q]) == At(catalog, q);
    }
  }

  ghost predicate Asks(paths: seq<string>, q: string) {
    exists i :: 0 <= i < |paths| && Normalize(paths[i]) == q
  }

  method NormalizePaths(paths: seq<string>) returns (out: seq<string>)
    ensures forall q :: q in out <==> Asks(paths, q)
  {
    out := [];
    for i := 0 to |paths|
      invariant |out| == i && forall j :: 0 <= j < i ==> out[j] == Normalize(paths[j])
    {
      out := out + [Normalize(paths[i])];
    }
    forall q ensures q in out <==> Asks(paths, q) {
      if q in out {
        var i :| 0 <= i < |out| && out[i] == q;
        assert Normalize(paths[i]) == q;
      }
      if Asks(paths, q) {
        var i :| 0 <= i < |paths| && Normalize(paths[i]) == q;
        assert out[i] == q;
      }
    }
  }

  function Changed(catalog: Catalog, p: string, to: Found): Catalog {
    if to.Present? then catalog[p := to.row] else catalog - {p}
  }

  class Scope {
    var catalog: Catalog
    var memo: Memo
    var rows: Catalog
    var hidden: set<string>
    var closed: bool

    ghost predicate Valid()
      reads this
    {
      Coherent(catalog, memo, rows)
    }

    constructor (catalog: Catalog, hidden: set<string>)
      ensures Valid() && this.catalog == catalog && this.hidden == hidden && memo == map[] && rows == map[] && !closed
    {
      this.catalog, this.hidden, memo, rows, closed := catalog, hidden, map[], map[], false;
    }

    /** One path's row: remembered, or published by a batch, or asked for. A closed scope starts nothing. */
    method Item(path: string) returns (answer: Answer)
      modifies this`memo, this`rows
      ensures old(Valid()) ==> Valid()
      ensures old(Valid()) && answer.Found? ==> answer.found == Direct(catalog, path)
      ensures answer == if closed && Normalize(path) !in old(memo) then Closed
                        else Found(Recalled(catalog, old(memo), old(rows), Normalize(path)))
      ensures !closed ==> Normalize(path) in memo
      ensures forall q :: q != Normalize(path) ==> At(rows, q) == old(At(rows, q))
      ensures forall q :: q != Normalize(path) ==> (q in memo <==> q in old(memo))
      ensures forall q :: q in old(memo) ==> q in memo && memo[q] == old(memo)[q]
    {
      var p := Normalize(path);
      if p in memo {
        return Found(memo[p]);
      }
      if closed {
        return Closed;
      }
      if p in rows {
        memo := memo[p := Present(rows[p])];
      } else if p in catalog {
        rows := rows[p := catalog[p]];
        memo := memo[p := Present(catalog[p])];
      } else {
        memo := memo[p := Missing];
      }
      return Found(memo[p]);
    }

    /** Main result: while what is remembered is right, a stat is what asking the catalog would say. */
    method Stat(path: string) returns (answer: Answer)
      modifies this`memo, this`rows
      ensures old(Valid()) ==> Valid()
      ensures old(Valid()) && !closed ==> answer == Found(Direct(catalog, path))
      ensures old(Valid()) && answer.Found? ==> answer.found == Direct(catalog, path)
      ensures answer == if closed && Normalize(path) !in old(memo) then Closed
                        else Found(Recalled(catalog, old(memo), old(rows), Normalize(path)))
      ensures !closed ==> Normalize(path) in memo
      ensures forall q :: q != Normalize(path) ==> At(rows, q) == old(At(rows, q))
      ensures forall q :: q != Normalize(path) ==> (q in memo <==> q in old(memo))
      ensures forall q :: q in old(memo) ==> q in memo && memo[q] == old(memo)[q]
    {
      answer := Item(path);
    }

    method PublishRows(found: Catalog)
      requires Valid() && forall p :: p in found ==> p in catalog && found[p] == catalog[p]
      modifies this`rows
      ensures Valid() && rows == old(rows) + found
    {
      rows := rows + found;
    }

    /** Paths a batch asked about and did not find, unless something is remembered of them already. */
    method RecordAbsent(requested: seq<string>, found: Catalog)
      requires Valid() && forall p :: p in requested ==> (p in found <==> p in catalog)
      modifies this`memo
      ensures Valid()
      ensures forall p :: p in requested && p !in found ==> p in memo
      ensures forall p :: p in old(memo) ==> p in memo && memo[p] == old(memo)[p]
    {
      for i := 0 to |requested|
        invariant Valid()
        invariant forall p :: p in requested[..i] && p !in found ==> p in memo
        invariant forall p :: p in old(memo) ==> p in memo && memo[p] == old(memo)[p]
      {
        var p := requested[i];
        if p !in found && p !in memo {
          memo := memo[p := Missing];
        }
      }
      assert requested[..|requested|] == requested;
    }

    /** Many paths in one query: those that are there, with the others recorded as absent. */
    method Stats(paths: seq<string>) returns (out: Catalog)
      requires Valid() && !closed
      modifies this`memo, this`rows
      ensures Valid()
      ensures forall q :: q in out <==> q in catalog && Asks(paths, q)
      ensures forall q :: q in out ==> out[q] == catalog[q]
    {
      var normal := NormalizePaths(paths);
      out := map q | q in catalog && q in normal :: catalog[q];
      PublishRows(out);
      RecordAbsent(normal, out);
    }

    method Invalidate(p: string)
      modifies this`memo, this`rows
      ensures memo == old(memo) - {p} && rows == old(rows) - {p}
    {
      rows := rows - {p};
      memo := memo - {p};
    }

    /** A write that changes one path: the store changes, and the path is forgotten. */
    method Write(path: string, to: Found)
      requires Valid()
      modifies this`catalog, this`memo, this`rows
      ensures Valid()
      ensures catalog == Changed(old(catalog), Normalize(path), to)
    {
      var p := Normalize(path);
      ghost var before, wasMemo, wasRows := catalog, memo, rows;
      catalog := Changed(catalog, p, to);
      Invalidate(p);
      ForgettingKeepsCoherent(before, catalog, wasMemo, wasRows, {p});
    }

    /** Renaming a file changes two paths and forgets both. */
    method Rename(from: string, to: string)
      requires Valid() && Normalize(from) in catalog && Normalize(to) !in catalog
      modifies this`catalog, this`memo, this`rows
      ensures Valid()
      ensures catalog == Changed(Changed(old(catalog), Normalize(to), Present(old(catalog)[Normalize(from)])),
                                 Normalize(from), Missing)
    {
      var a, b := Normalize(from), Normalize(to);
      ghost var before, wasMemo, wasRows := catalog, memo, rows;
      catalog := Changed(Changed(catalog, b, Present(catalog[a])), a, Missing);
      Invalidate(a);
      Invalidate(b);
      assert memo == wasMemo - {a, b} && rows == wasRows - {a, b};
      ForgettingKeepsCoherent(before, catalog, wasMemo, wasRows, {a, b});
    }

    /** Makes a collection; with `recurse` also whatever is missing above it, which is not forgotten. A new
        collection's row is `given`. */
    method MakeDir(path: string, recurse: bool, given: Row) returns (ok: bool)
      modifies this`catalog, this`memo, this`rows
      ensures var p := Normalize(path); var made := MadeBy(old(catalog), hidden, p);
              && (ok <==> recurse || made <= {p})
              && (!ok ==> catalog == old(catalog) && memo == old(memo) && rows == old(rows))
              && (ok ==> catalog == WithMade(old(catalog), made, given) && memo == old(memo) - {p} && rows == old(rows) - {p})
              && (old(Valid()) && ok ==> (Valid() <==> forall a :: a in made && a != p ==> a !in old(memo)))
    {
      var p := Normalize(path);
      var made := MadeBy(catalog, hidden, p);
      ok := recurse || made <= {p};
      if ok {
        ghost var before, wasMemo, wasRows := catalog, memo, rows;
        catalog := WithMade(catalog, made, given);
        Invalidate(p);
        if Coherent(before, wasMemo, wasRows) { MadeCoherentExactly(before, hidden, wasMemo, wasRows, p, given); }
      }
    }

    /** Removes a path, and with a collection everything in it, which is not forgotten. `isDir` reads a row. */
    method Delete(path: string, isDir: Row -> bool) returns (ok: bool)
      requires Valid() && !closed
      modifies this`catalog, this`memo, this`rows
      ensures var p := Normalize(path); var before := old(catalog);
              && (ok <==> p in before)
              && (!ok ==> catalog == before && Valid())
              && (ok && !isDir(before[p]) ==> catalog == before - {p} && Valid())
              && (ok && isDir(before[p]) ==>
                    && catalog == WithoutTree(before, p)
                    && (Valid() <==> forall q :: q in before && Below(q, p) ==> !Remembers(old(memo), old(rows), q)))
      ensures forall q :: q != Normalize(path) && q in old(memo) ==> q in memo && memo[q] == old(memo)[q]
    {
      var p := Normalize(path);
      var answer := Stat(path);
      ok := answer.found.Present?;
      if !ok {
        return;
      }
      ghost var before, wasMemo, wasRows := catalog, memo, rows;
      if isDir(answer.found.row) {
        catalog := WithoutTree(catalog, p);
        Invalidate(p);
        RemovedCoherentExactly(before, wasMemo, wasRows, p);
        forall q | Below(q, p) ensures Remembers(wasMemo, wasRows, q) <==> Remembers(old(memo), old(rows), q) {
          assert q != p && At(wasRows, q) == old(At(rows, q));
        }
      } else {
        catalog := catalog - {p};
        Invalidate(p);
        ForgettingKeepsCoherent(before, catalog, wasMemo, wasRows, {p});
      }
    }

    method Close()
      modifies this`closed
      ensures closed
    {
      closed := true;
    }
  }

  /** A run in which a remembered absence goes stale: asked about, then created on the way to something
      below it, `/a` is still reported missing. */
  method StaleAfterMakeDir() returns (scope: Scope, first: Answer, second: Answer)
    ensures fresh(scope) && first == Found(Missing) == second
    ensures Direct(scope.catalog, "/a") == Present("new") && !scope.Valid()
  {
    scope := new Scope(map["/" := "root"], {});
    assert Normalize("/a") == "/a" && Normalize("/a/b") == "/a/b";
    first := scope.Stat("/a");
    assert "/a/b"[..2] == "/a" && "/a" in Above("/a/b");
    assert "/a" in MadeBy(scope.catalog, scope.hidden, "/a/b");
    var ok := scope.MakeDir("/a/b", true, "new");
    assert scope.memo["/a"] == Missing;
    second := scope.Stat("/a");
  }

  /** And one in which a remembered row goes stale: `/d` is removed with the file in it, which is still
      reported. */
  method StaleAfterDelete() returns (scope: Scope, first: Answer, second: Answer)
    ensures fresh(scope) && first == Found(Present("file")) == second
    ensures Direct(scope.catalog, "/d/f") == Missing && !scope.Valid()
  {
    scope := new Scope(map["/" := "root", "/d" := "dir", "/d/f" := "file"], {});
    assert Normalize("/d") == "/d" && Normalize("/d/f") == "/d/f";
    first := scope.Stat("/d/f");
    var removed := scope.Delete("/d", (row: Row) => row == "dir");
    assert "/d/f"[..3] == "/d" + "/" && Below("/d/f", "/d");
    assert scope.memo["/d/f"] == Present("file");
    second := scope.Stat("/d/f");
  }
}
