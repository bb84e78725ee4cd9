/** The endpoints that check paths and record tasks, and why live tasks never overlap. */
module LockSafety {
  import opened GoPaths
  import opened Locks
  import Paths

  /** What each endpoint is about to record. `trashPaths` and `plans` are keyed by requested path. */
  datatype Request =
    | MoveMany(sources: seq<string>, dest: string)
    | RenameOne(source: string, destination: string)
    | Trash(requested: seq<string>, trashPaths: map<string, string>)
    | EmptyTrash(contents: seq<string>)
    | PutBack(requested: seq<string>, plans: map<string, Plan>)

  datatype Plan = Plan(restoredPath: string, partialRestore: bool)

  type Tasks = map<nat, Task>

  function Strings(ss: seq<string>): seq<Json> {
    if ss == [] then [] else [Str(ss[0])] + Strings(ss[1..])
  }

  function StringMap(m: map<string, string>): Json { Obj(map k | k in m :: Str(m[k])) }

  function PlanMap(m: map<string, Plan>): Json {
    Obj(map k | k in m :: Obj(map["restored-path" := Str(m[k].restoredPath), "partial-restore" := Other]))
  }

  function TaskOf(request: Request): Task {
    match request
    case MoveMany(sources, dest) =>
      Task(Move, map["sources" := Arr(Strings(sources)), "destination" := Str(dest), "instance-id" := Other])
    case RenameOne(source, destination) =>
      Task(Rename, map["source" := Str(source), "destination" := Str(destination), "instance-id" := Other])
    case Trash(requested, trashPaths) =>
      Task(Delete, map["paths" := Arr(Strings(requested)), "trash-paths" := StringMap(trashPaths),
                       "instance-id" := Other])
    case EmptyTrash(contents) =>
      Task(DeleteTrash, map["trash-paths" := Arr(Strings(contents)), "instance-id" := Other])
    case PutBack(requested, plans) =>
      Task(Restore, map["paths" := Arr(Strings(requested)), "restoration-paths" := PlanMap(plans),
                        "instance-id" := Other])
  }

  /** The paths the endpoint asks about before recording the task. */
  ghost predicate Checks(request: Request, p: string) {
    match request
    case MoveMany(sources, dest) => p in sources || p in Destinations(dest, sources)
    case RenameOne(source, destination) => p == source || p == destination
    case Trash(requested, trashPaths) => p in requested || p in trashPaths.Values
    case EmptyTrash(contents) => p in contents
    case PutBack(requested, plans) =>
      p in requested || exists k :: k in requested && k in plans && plans[k].restoredPath == p
  }

  lemma {:induction false} TextsOfStrings(ss: seq<string>)
    ensures Texts(Strings(ss)) == ss
  {
    if ss != [] {
      TextsOfStrings(ss[1..]);
      assert Strings(ss)[1..] == Strings(ss[1..]);
    }
  }

  /** A restore is planned for each requested path. */
  predicate WellPlanned(request: Request) {
    request.PutBack? ==> forall k :: k in request.plans ==> k in request.requested
  }

  /** Main result: everything a recorded task will hold is among the paths its endpoint asked about. */
  lemma LockedAreChecked(request: Request, p: string)
    requires WellPlanned(request) && Holds(TaskOf(request), p)
    ensures Checks(request, p)
  {
    match request
    case MoveMany(sources, dest) => MoveLocksChecked(sources, dest, p);
    case RenameOne(source, destination) =>
    case Trash(requested, trashPaths) => TextsOfStrings(requested);
    case EmptyTrash(contents) => TextsOfStrings(contents);
    case PutBack(requested, plans) => RestoreLocksChecked(requested, plans, p);
  }

  lemma MoveLocksChecked(sources: seq<string>, dest: string, p: string)
    requires Holds(TaskOf(MoveMany(sources, dest)), p)
    ensures Checks(MoveMany(sources, dest), p)
  {
    TextsOfStrings(sources);
    if p !in sources {
      var s :| s in sources && s != "" && p == Destination(dest, s);
      var i :| 0 <= i < |sources| && sources[i] == s;
      assert Destinations(dest, sources)[i] == p;
    }
  }

  lemma RestoreLocksChecked(requested: seq<string>, plans: map<string, Plan>, p: string)
    requires WellPlanned(PutBack(requested, plans)) && Holds(TaskOf(PutBack(requested, plans)), p)
    ensures Checks(PutBack(requested, plans), p)
  {
    TextsOfStrings(requested);
    if p !in requested {
      var raw := Field(TaskOf(PutBack(requested, plans)).data, "restoration-paths").fields;
      var k :| k in raw && IsObjectWith(raw[k], "restored-path", p);
      assert raw[k].fields["restored-path"] == Str(plans[k].restoredPath);
    }
  }

  // ----- What is held, in the request's own terms -----

  /** A move's sources and where they land, a rename's two ends, a delete's paths and their places in the trash,
      the trash's contents, a restore's paths and where they are planned to go. */
  ghost predicate WritesTo(request: Request, p: string) {
    match request
    case MoveMany(sources, dest) =>
      p in sources || (dest != "" && exists s :: s in sources && s != "" && p == Join(dest, Base(s)))
    case RenameOne(source, destination) => p == source || p == destination
    case Trash(requested, trashPaths) => p in requested || exists k :: k in trashPaths && trashPaths[k] == p
    case EmptyTrash(contents) => p in contents
    case PutBack(requested, plans) => p in requested || exists k :: k in plans && plans[k].restoredPath == p
  }

  /** Main result: a recorded task holds exactly what it will write to, but for empty paths. */
  lemma {:induction false} HeldExactly(request: Request, p: string)
    ensures Holds(TaskOf(request), p) <==> p != "" && WritesTo(request, p)
  {
    match request
    case MoveMany(sources, dest) => MoveHolds(sources, dest, p);
    case RenameOne(source, destination) =>
    case Trash(requested, trashPaths) => DeleteHolds(requested, trashPaths, p);
    case EmptyTrash(contents) => TextsOfStrings(contents);
    case PutBack(requested, plans) => RestoreHolds(requested, plans, p);
  }

  lemma MoveHolds(sources: seq<string>, dest: string, p: string)
    ensures Names(TaskOf(MoveMany(sources, dest)), p) <==> WritesTo(MoveMany(sources, dest), p)
  {
    TextsOfStrings(sources);
    if s :| s in sources && s != "" && p == Join(dest, Base(s)) {
      assert p == Destination(dest, s) && LandsAt(sources, dest, p);
    }
  }

  lemma DeleteHolds(requested: seq<string>, trashPaths: map<string, string>, p: string)
    ensures Names(TaskOf(Trash(requested, trashPaths)), p) <==> WritesTo(Trash(requested, trashPaths), p)
  {
    TextsOfStrings(requested);
    var data := TaskOf(Trash(requested, trashPaths)).data;
    var raw := Field(data, "trash-paths").fields;
    assert raw == map k | k in trashPaths :: Str(trashPaths[k]);
    if k :| k in trashPaths && trashPaths[k] == p {
      assert raw[k] == Str(p);
    }
  }

  lemma RestoreHolds(requested: seq<string>, plans: map<string, Plan>, p: string)
    ensures Names(TaskOf(PutBack(requested, plans)), p) <==> WritesTo(PutBack(requested, plans), p)
  {
    TextsOfStrings(requested);
    var data := TaskOf(PutBack(requested, plans)).data;
    var raw := Field(data, "restoration-paths").fields;
    forall k | k in plans ensures k in raw && (IsObjectWith(raw[k], "restored-path", p) <==> plans[k].restoredPath == p) {
      assert raw[k].fields["restored-path"] == Str(plans[k].restoredPath);
    }
  }

  /** Main result: and so everything an endpoint asked about is held, when it names no empty source or
      destination and what it has planned is for what was requested. */
  lemma CheckedAreHeld(request: Request, p: string)
    requires Checks(request, p) && p != ""
    requires request.MoveMany? ==> request.dest != "" && "" !in request.sources
    ensures Holds(TaskOf(request), p)
  {
    HeldExactly(request, p);
    if request.MoveMany? && p !in request.sources {
      var i :| 0 <= i < |request.sources| && Destinations(request.dest, request.sources)[i] == p;
      assert request.sources[i] in request.sources && p == Join(request.dest, Base(request.sources[i]));
    }
  }

  /** On canonical paths a thing lands under its own name in the collection it goes to. */
  lemma LandsUnderItsName(d: Paths.Path, p: Paths.Path, n: string)
    requires IsPath(d) && IsPath(p) && IsName(n)
    ensures Join(Spelled(d), Base(Spelled(p + [n]))) == Spelled(d + [n])
  {
    SpelledOperations(p, n, p);
    SpelledOperations(d, n, p);
  }

  // ----- Every run -----

  ghost predicate Disjoint(a: Task, b: Task) {
    forall p, q :: Holds(a, p) && Holds(b, q) ==> !Conflicts(p, q)
  }

  /** No two live tasks hold conflicting paths. */
  ghost predicate Exclusive(live: Tasks) {
    forall i, j :: i in live && j in live && i != j ==> Disjoint(live[i], live[j])
  }

  ghost predicate HeldIn(live: Tasks, p: string) {
    exists i :: i in live && Holds(live[i], p)
  }

  ghost predicate Admits(live: Tasks, request: Request) {
    forall p, q :: Checks(request, p) && HeldIn(live, q) ==> !Conflicts(p, q)
  }

  /** A task is recorded, one ends, or something that locks nothing is recorded. */
  datatype Step = Record(id: nat, request: Request) | End(id: nat) | Unrelated(id: nat, data: map<string, Json>)

  ghost function Applied(live: Tasks, step: Step): Tasks {
    match step
    case Record(id, request) => if id !in live && Admits(live, request) then live[id := TaskOf(request)] else live
    case End(id) => live - {id}
    case Unrelated(id, data) => if id !in live then live[id := Task(Upload, data)] else live
  }

  ghost function After(steps: seq<Step>): Tasks {
    if steps == [] then map[] else Applied(After(steps[..|steps| - 1]), steps[|steps| - 1])
  }

  ghost predicate AllWellPlanned(steps: seq<Step>) {
    forall s :: s in steps && s.Record? ==> WellPlanned(s.request)
  }

  lemma RecordingKeepsExclusive(live: Tasks, id: nat, request: Request)
    requires Exclusive(live) && WellPlanned(request) && id !in live && Admits(live, request)
    ensures Exclusive(live[id := TaskOf(request)])
  {
    var live' := live[id := TaskOf(request)];
    forall i | i in live ensures Disjoint(TaskOf(request), live[i]) && Disjoint(live[i], TaskOf(request)) {
      forall p, q | Holds(TaskOf(request), p) && Holds(live[i], q) ensures !Conflicts(p, q) && !Conflicts(q, p) {
        LockedAreChecked(request, p);
        assert HeldIn(live, q);
        ConflictsIsSymmetric(p, q);
      }
    }
  }

  lemma EndingKeepsExclusive(live: Tasks, id: nat)
    requires Exclusive(live)
    ensures Exclusive(live - {id})
  {
  }

  lemma UnrelatedKeepsExclusive(live: Tasks, id: nat, data: map<string, Json>)
    requires Exclusive(live)
    ensures Exclusive(live[id := Task(Upload, data)])
  {
    forall t: Task ensures Disjoint(Task(Upload, data), t) && Disjoint(t, Task(Upload, data)) { }
  }

  lemma {:induction false} StepKeepsExclusive(live: Tasks, step: Step)
    requires Exclusive(live) && (step.Record? ==> WellPlanned(step.request))
    ensures Exclusive(Applied(live, step))
  {
    match step
    case Record(id, request) =>
      if id !in live && Admits(live, request) { RecordingKeepsExclusive(live, id, request); }
    case End(id) => EndingKeepsExclusive(live, id);
    case Unrelated(id, data) => UnrelatedKeepsExclusive(live, id, data);
  }

  /** Main result: with each check and the recording it allows taken as one step, no run ever has two
      live tasks of the locking types holding conflicting paths. */
  lemma {:induction false} RunsAreExclusive(steps: seq<Step>)
    requires AllWellPlanned(steps)
    ensures Exclusive(After(steps))
  {
    if steps != [] {
      assert steps[|steps| - 1] in steps;
      assert AllWellPlanned(steps[..|steps| - 1]);
      RunsAreExclusive(steps[..|steps| - 1]);
      StepKeepsExclusive(After(steps[..|steps| - 1]), steps[|steps| - 1]);
    }
  }

  /** Main result, in the tree: what two live tasks hold never lies one inside the other. */
  lemma LiveTasksAreApart(steps: seq<Step>, i: nat, j: nat, p: Paths.Path, q: Paths.Path)
    requires AllWellPlanned(steps) && i in After(steps) && j in After(steps) && i != j
    requires IsPath(p) && IsPath(q) && p != [] && q != []
    requires Holds(After(steps)[i], Spelled(p)) && Holds(After(steps)[j], Spelled(q))
    ensures !Paths.IsWithin(p, q) && !Paths.IsWithin(q, p)
  {
    RunsAreExclusive(steps);
    assert Disjoint(After(steps)[i], After(steps)[j]);
    ApartWhenFree(p, q);
  }

  /** Main result: in particular nothing another live task holds lies in, or contains, the place where something
      that is being moved will land. */
  lemma LandingsAreApart(steps: seq<Step>, i: nat, j: nat, sources: seq<string>, d: Paths.Path, p: Paths.Path, n: string,
                         q: Paths.Path)
    requires AllWellPlanned(steps) && i in After(steps) && j in After(steps) && i != j
    requires After(steps)[i] == TaskOf(MoveMany(sources, Spelled(d))) && Spelled(p + [n]) in sources
    requires IsPath(d) && IsPath(p) && IsName(n) && IsPath(q) && q != [] && Holds(After(steps)[j], Spelled(q))
    ensures !Paths.IsWithin(d + [n], q) && !Paths.IsWithin(q, d + [n])
  {
    LandsUnderItsName(d, p, n);
    HeldExactly(MoveMany(sources, Spelled(d)), Spelled(d + [n]));
    LiveTasksAreApart(steps, i, j, d + [n], q);
  }

  lemma ApartWhenFree(p: Paths.Path, q: Paths.Path)
    requires IsPath(p) && IsPath(q) && p != [] && q != []
    ensures Conflicts(Spelled(p), Spelled(q)) <==> Paths.IsWithin(p, q) || Paths.IsWithin(q, p)
  {
    SpelledParts(p);
    SpelledParts(q);
    WithinSpelled(p, q);
    WithinSpelled(q, p);
  }

  // ----- The endpoints -----

  datatype Outcome = Started(id: nat) | Nothing | Refused(verdict: Verdict) | Rejected

  ghost predicate IsLive(live: Tasks, task: Task) { exists id :: id in live && live[id] == task }

  ghost predicate ListsTasks(tasks: seq<Task>, live: Tasks) {
    && (forall task :: task in tasks ==> IsLive(live, task))
    && (forall id :: id in live ==> live[id] in tasks)
  }

  class Writes {
    var live: Tasks

    /** The task service's answer: every unfinished task, if it can be reached. */
    method ByFilter(reachable: bool) returns (reading: Reading)
      ensures reading.Unreachable? <==> !reachable
      ensures reachable ==> ListsTasks(reading.tasks, live)
    {
      if !reachable {
        return Unreachable;
      }
      var tasks: seq<Task> := [];
      var left := live.Keys;
      while left != {}
        invariant left <= live.Keys
        invariant forall task :: task in tasks ==> IsLive(live, task)
        invariant forall id :: id in live && id !in left ==> live[id] in tasks
      {
        var id :| id in left;
        left := left - {id};
        tasks := tasks + [live[id]];
      }
      return Unfinished(tasks);
    }

    /** The check, and if it and the endpoint's other checks pass, the recording. */
    method CheckAndRecord(asked: seq<string>, request: Request, id: nat, reachable: bool, admissible: bool)
      returns (outcome: Outcome)
      requires forall p :: Checks(request, p) <==> p in asked
      requires id !in live
      modifies this
      ensures outcome.Started? ==> outcome.id == id && admissible && Admits(old(live), request)
      ensures !outcome.Started? ==> live == old(live)
      ensures outcome.Started? <== reachable && admissible && Admits(old(live), request)
      ensures outcome.Started? ==> live == Applied(old(live), Record(id, request)) == old(live)[id := TaskOf(request)]
      ensures outcome.Refused? && outcome.verdict.Conflict? ==>
                forall p :: p in outcome.verdict.paths <==> Blocked(old(live), request, p)
      ensures outcome.Refused? ==> outcome.verdict == Undetermined || !Admits(old(live), request)
      ensures !reachable && asked != [] ==> outcome == Refused(Undetermined)
      ensures !outcome.Nothing?
    {
      var reading := ByFilter(reachable);
      var verdict := Validate(reading, asked);
      if reachable {
        VerdictMeans(reading.tasks, asked, request, live);
      }
      if verdict != Free {
        return Refused(verdict);
      }
      if !admissible {
        return Rejected;
      }
      live := live[id := TaskOf(request)];
      return Started(id);
    }

    method StartMove(sources: seq<string>, dest: string, id: nat, reachable: bool, admissible: bool)
      returns (outcome: Outcome)
      requires Exclusive(live) && id !in live
      modifies this
      ensures Exclusive(live)
      ensures outcome.Started? <== reachable && admissible && Admits(old(live), MoveMany(sources, dest))
      ensures live == if outcome.Started? then Applied(old(live), Record(id, MoveMany(sources, dest))) else old(live)
    {
      var destinations := DestinationsUnder(dest, sources);
      var request := MoveMany(sources, dest);
      outcome := CheckAndRecord(sources + destinations, request, id, reachable, admissible);
      StepKeepsExclusive(old(live), Record(id, request));
    }

    /** Renaming something to what it is called already starts nothing. */
    method StartRename(source: string, destination: string, id: nat, reachable: bool, admissible: bool)
      returns (outcome: Outcome)
      requires Exclusive(live) && id !in live
      modifies this
      ensures Exclusive(live)
      ensures outcome.Nothing? <==> source == destination
      ensures outcome.Started? <== reachable && admissible && source != destination
                                   && Admits(old(live), RenameOne(source, destination))
      ensures live == if outcome.Started? then Applied(old(live), Record(id, RenameOne(source, destination)))
                      else old(live)
    {
      if source == destination {
        return Nothing;
      }
      var request := RenameOne(source, destination);
      outcome := CheckAndRecord([source, destination], request, id, reachable, admissible);
      StepKeepsExclusive(old(live), Record(id, request));
    }

    /** Everything outside the caller's trash gets a name in it; `suffixes` are the random parts. */
    method DeletePaths(requested: seq<string>, userTrash: string, suffixes: seq<string>, id: nat,
                       reachable: bool, admissible: bool)
      returns (outcome: Outcome, trashPaths: map<string, string>)
      requires Exclusive(live) && id !in live && |suffixes| == |requested|
      modifies this
      ensures Exclusive(live)
      ensures forall p :: p in trashPaths <==> p in requested && !IsWithin(p, userTrash)
      ensures forall p :: p in trashPaths ==>
                exists i :: 0 <= i < |requested| && requested[i] == p
                            && trashPaths[p] == Join(userTrash, Base(p) + "." + suffixes[i])
      ensures outcome.Started? <== reachable && admissible && Admits(old(live), Trash(requested, trashPaths))
      ensures live == if outcome.Started? then Applied(old(live), Record(id, Trash(requested, trashPaths)))
                      else old(live)
    {
      trashPaths := map[];
      for i := 0 to |requested|
        invariant live == old(live)
        invariant forall p :: p in trashPaths <==> p in requested[..i] && !IsWithin(p, userTrash)
        invariant forall p :: p in trashPaths ==>
                    exists k :: 0 <= k < i && requested[k] == p
                                && trashPaths[p] == Join(userTrash, Base(p) + "." + suffixes[k])
      {
        if !IsWithin(requested[i], userTrash) {
          trashPaths := trashPaths[requested[i] := Join(userTrash, Base(requested[i]) + "." + suffixes[i])];
        }
      }
      assert requested[..|requested|] == requested;
      var landing := Listed(trashPaths);
      var request := Trash(requested, trashPaths);
      outcome := CheckAndRecord(requested + landing, request, id, reachable, admissible);
      StepKeepsExclusive(old(live), Record(id, request));
    }

    method StartEmptyTrash(contents: seq<string>, id: nat, reachable: bool, admissible: bool)
      returns (outcome: Outcome)
      requires Exclusive(live) && id !in live
      modifies this
      ensures Exclusive(live)
      ensures outcome.Started? <== reachable && admissible && Admits(old(live), EmptyTrash(contents))
      ensures live == if outcome.Started? then Applied(old(live), Record(id, EmptyTrash(contents))) else old(live)
    {
      outcome := CheckAndRecord(contents, EmptyTrash(contents), id, reachable, admissible);
      StepKeepsExclusive(old(live), Record(id, EmptyTrash(contents)));
    }

    /** `planned` is what planning answered for each requested path, in order. */
    method StartRestore(requested: seq<string>, planned: seq<Plan>, id: nat, reachable: bool, admissible: bool)
      returns (outcome: Outcome, plans: map<string, Plan>)
      requires Exclusive(live) && id !in live && |planned| == |requested|
      requires forall i, j :: 0 <= i < j < |requested| && requested[i] == requested[j] ==> planned[i] == planned[j]
      modifies this
      ensures Exclusive(live)
      ensures outcome.Nothing? <==> requested == []
      ensures forall p :: p in plans <==> p in requested
      ensures forall i :: 0 <= i < |requested| ==> requested[i] in plans && plans[requested[i]] == planned[i]
      ensures outcome.Started? <== reachable && admissible && requested != []
                                   && Admits(old(live), PutBack(requested, plans))
      ensures live == if outcome.Started? then Applied(old(live), Record(id, PutBack(requested, plans)))
                      else old(live)
    {
      plans := map[];
      if |requested| == 0 {
        return Nothing, plans;
      }
      var destinations := [];
      for i := 0 to |requested|
        invariant live == old(live)
        invariant |destinations| == i
        invariant forall p :: p in plans <==> p in requested[..i]
        invariant forall k :: 0 <= k < i ==>
                    requested[k] in plans && plans[requested[k]] == planned[k]
                    && destinations[k] == planned[k].restoredPath
      {
        plans := plans[requested[i] := planned[i]];
        destinations := destinations + [planned[i].restoredPath];
      }
      assert requested[..|requested|] == requested;
      var request := PutBack(requested, plans);
      outcome := CheckAndRecord(requested + destinations, request, id, reachable, admissible);
      StepKeepsExclusive(old(live), Record(id, request));
    }

    method Finish(id: nat)
      requires Exclusive(live)
      modifies this
      ensures live == Applied(old(live), End(id)) && Exclusive(live)
    {
      live := live - {id};
    }
  }

  lemma HeldEitherWay(tasks: seq<Task>, live: Tasks, p: string)
    requires ListsTasks(tasks, live)
    ensures HeldBy(tasks, p) <==> HeldIn(live, p)
  {
    if HeldBy(tasks, p) {
      var i :| 0 <= i < |tasks| && Holds(tasks[i], p);
      assert IsLive(live, tasks[i]);
    }
    if HeldIn(live, p) {
      var id :| id in live && Holds(live[id], p);
      assert live[id] in tasks;
    }
  }

  ghost predicate Blocked(live: Tasks, request: Request, p: string) {
    Checks(request, p) && exists q :: HeldIn(live, q) && Conflicts(p, q)
  }

  /** What the check refuses is exactly what is blocked, and it refuses nothing exactly when the request
      is admitted. */
  lemma VerdictMeans(tasks: seq<Task>, asked: seq<string>, request: Request, live: Tasks)
    requires forall p :: Checks(request, p) <==> p in asked
    requires ListsTasks(tasks, live)
    ensures forall p :: p in RefusedOf(tasks, asked) <==> Blocked(live, request, p)
    ensures Admits(live, request) <==> RefusedOf(tasks, asked) == []
  {
    forall p ensures HeldBy(tasks, p) <==> HeldIn(live, p) {
      HeldEitherWay(tasks, live, p);
    }
    forall p ensures p in RefusedOf(tasks, asked) <==> p in asked && Locks.Taken(tasks, p) {
      RefusedExactly(tasks, asked, p);
    }
    AdmitsExactly(tasks, asked, request, live);
  }

  lemma AdmitsExactly(tasks: seq<Task>, asked: seq<string>, request: Request, live: Tasks)
    requires forall p :: Checks(request, p) <==> p in asked
    requires forall p :: HeldBy(tasks, p) <==> HeldIn(live, p)
    requires forall p :: p in RefusedOf(tasks, asked) <==> p in asked && Taken(tasks, p)
    ensures Admits(live, request) <==> RefusedOf(tasks, asked) == []
  {
    var refused := RefusedOf(tasks, asked);
    if refused != [] {
      var p := refused[0];
      assert p in asked && Taken(tasks, p);
      var q :| HeldBy(tasks, q) && Conflicts(p, q);
      assert Checks(request, p) && HeldIn(live, q);
    }
  }

  method Listed(m: map<string, string>) returns (values: seq<string>)
    ensures forall v :: v in values <==> v in m.Values
  {
    values := [];
    var left := m.Keys;
    while left != {}
      invariant left <= m.Keys
      invariant forall v :: v in values ==> v in m.Values
      invariant forall k :: k in m && k !in left ==> m[k] in values
    {
      var k :| k in left;
      left := left - {k};
      values := values + [m[k]];
    }
  }
}
