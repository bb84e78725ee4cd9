/** The runner: many jobs, and shutting down. */
module Runners {
  import opened Jobs

  /** `running` is the wait group's count. `done` is set when a Shutdown has returned without an error. */
  datatype Runner = Runner(stopping: bool, cancelled: bool, running: int, jobs: map<nat, Job>, done: bool)

  datatype Act =
    | Start(id: nat, notifies: bool)
    | Work(id: nat, move: Move)
    | BeginShutdown
    | Cancel
    | EndShutdown

  datatype Answer = Accepted | Refused

  predicate Enabled(r: Runner, a: Act) {
    match a
    case Start(id, _) => id !in r.jobs
    case Work(id, m) => id in r.jobs && Jobs.Enabled(r.jobs[id], m, r.cancelled)
    case BeginShutdown => true
    case Cancel => r.stopping
    case EndShutdown => r.stopping && r.cancelled && r.running == 0
  }

  function Answered(r: Runner): Answer { if r.stopping then Refused else Accepted }

  function Leaves(before: Job, after: Job): int { if after.phase.Finished? && !before.phase.Finished? then 1 else 0 }

  function Acted(r: Runner, a: Act): Runner
    requires Enabled(r, a)
  {
    match a
    case Start(id, notifies) =>
      if Answered(r).Refused? then r else r.(running := r.running + 1, jobs := r.jobs[id := Fresh(notifies)])
    case Work(id, m) =>
      var j := Stepped(r.jobs[id], m);
      r.(running := r.running - Leaves(r.jobs[id], j), jobs := r.jobs[id := j])
    case BeginShutdown => r.(stopping := true)
    case Cancel => r.(cancelled := true)
    case EndShutdown => r.(done := true)
  }

  function New(): Runner { Runner(false, false, 0, map[], false) }

  function After(acts: seq<Act>): Runner {
    if acts == [] then New()
    else
      var r, last := After(acts[..|acts| - 1]), acts[|acts| - 1];
      if Enabled(r, last) then Acted(r, last) else r
  }

  function Unfinished(r: Runner): set<nat> {
    set id | id in r.jobs && !r.jobs[id].phase.Finished?
  }

  ghost predicate AllInv(jobs: map<nat, Job>) { forall id :: id in jobs ==> Inv(jobs[id]) }

  ghost predicate Counted(r: Runner) {
    && r.running == |Unfinished(r)|
    && (r.cancelled ==> r.stopping)
    && (r.done ==> r.stopping && Unfinished(r) == {})
  }

  ghost predicate Sound(r: Runner) { Counted(r) && AllInv(r.jobs) }

  lemma StartCounts(r: Runner, id: nat, notifies: bool)
    requires Counted(r) && id !in r.jobs
    ensures Counted(Acted(r, Start(id, notifies)))
  {
    if !r.stopping {
      assert Unfinished(Acted(r, Start(id, notifies))) == Unfinished(r) + {id};
    }
  }

  lemma StartKeepsInv(r: Runner, id: nat, notifies: bool)
    requires AllInv(r.jobs)
    ensures AllInv(r.jobs[id := Fresh(notifies)])
  {
    FreshIsFine(notifies);
  }

  lemma ReplacedCounts(r: Runner, id: nat, k: Job)
    requires Counted(r) && id in r.jobs && (r.jobs[id].phase.Finished? ==> k.phase.Finished?)
    ensures Counted(r.(running := r.running - Leaves(r.jobs[id], k), jobs := r.jobs[id := k]))
  {
    var q := r.(running := r.running - Leaves(r.jobs[id], k), jobs := r.jobs[id := k]);
    if r.jobs[id].phase.Finished? {
      assert Unfinished(q) == Unfinished(r);
    } else if k.phase.Finished? {
      assert Unfinished(r) == Unfinished(q) + {id};
    } else {
      assert Unfinished(q) == Unfinished(r) && id in Unfinished(r);
    }
  }

  lemma WorkCounts(r: Runner, id: nat, m: Move)
    requires Counted(r) && Enabled(r, Work(id, m))
    ensures Counted(Acted(r, Work(id, m)))
  {
    var j := r.jobs[id];
    StepKeepsKind(j, m);
    ReplacedCounts(r, id, Stepped(j, m));
  }

  lemma {:induction false} WorkKeepsInv(r: Runner, id: nat, m: Move, k: Job)
    requires AllInv(r.jobs) && Enabled(r, Work(id, m)) && k == Stepped(r.jobs[id], m)
    ensures AllInv(r.jobs[id := k])
  {
    StepKeepsInv(r.jobs[id], m, r.cancelled);
  }

  lemma {:induction false} ActKeepsSound(r: Runner, a: Act)
    requires Sound(r) && Enabled(r, a)
    ensures Sound(Acted(r, a))
  {
    match a
    case Start(id, notifies) =>
      StartCounts(r, id, notifies);
      StartKeepsInv(r, id, notifies);
    case Work(id, m) =>
      WorkCounts(r, id, m);
      WorkKeepsInv(r, id, m, Stepped(r.jobs[id], m));
    case BeginShutdown => assert Unfinished(Acted(r, a)) == Unfinished(r);
    case Cancel => assert Unfinished(Acted(r, a)) == Unfinished(r);
    case EndShutdown => assert Unfinished(Acted(r, a)) == Unfinished(r);
  }

  lemma {:induction false} RunsAreSound(acts: seq<Act>)
    ensures Sound(After(acts))
  {
    if acts != [] {
      RunsAreSound(acts[..|acts| - 1]);
      var r, last := After(acts[..|acts| - 1]), acts[|acts| - 1];
      if Enabled(r, last) { ActKeepsSound(r, last); }
    }
  }

  /** Main result: once a shutdown has returned without an error, every job ever accepted has tried its
      terminal status, at most once successfully, and told its user if it should. */
  lemma {:induction false} ShutdownMeansDone(acts: seq<Act>, id: nat)
    requires After(acts).done && id in After(acts).jobs
    ensures var j := After(acts).jobs[id];
            && j.phase.Finished? && !j.panicked
            && 1 <= Count(j.log, IsTerminal) <= TERMINAL_RETRIES && Count(j.log, IsSuccess) <= 1
            && Count(j.log, IsNotice) == (if j.known && j.notifies then 1 else 0)
  {
    RunsAreSound(acts);
    assert id !in Unfinished(After(acts));
  }

  /** Main result: a runner told to stop accepts nothing from then on. */
  lemma {:induction false} StoppingIsForGood(acts: seq<Act>, i: nat)
    requires i <= |acts| && After(acts[..i]).stopping
    ensures After(acts).stopping && Answered(After(acts)).Refused? && After(acts).jobs.Keys == After(acts[..i]).jobs.Keys
    decreases |acts|
  {
    if i == |acts| {
      assert acts[..i] == acts;
    } else {
      var front := acts[..|acts| - 1];
      assert front[..i] == acts[..i];
      StoppingIsForGood(front, i);
    }
  }

  /** Main result: and after a shutdown that returned, nothing is posted any more for any of its jobs. */
  lemma {:induction false} DoneIsForGood(acts: seq<Act>, i: nat, id: nat)
    requires i <= |acts| && After(acts[..i]).done && id in After(acts[..i]).jobs
    ensures After(acts).done && id in After(acts).jobs && After(acts).jobs[id].log == After(acts[..i]).jobs[id].log
    decreases |acts|
  {
    if i == |acts| {
      assert acts[..i] == acts;
    } else {
      var front := acts[..|acts| - 1];
      assert front[..i] == acts[..i];
      DoneIsForGood(front, i, id);
      RunsAreSound(front);
      DoneIsQuiet(After(front), acts[|acts| - 1], id);
    }
  }

  lemma {:induction false} DoneIsQuiet(r: Runner, a: Act, id: nat)
    requires Sound(r) && r.done && id in r.jobs
    ensures Enabled(r, a) ==> Acted(r, a).done && id in Acted(r, a).jobs && Acted(r, a).jobs[id].log == r.jobs[id].log
  {
    assert id !in Unfinished(r);
    if Enabled(r, a) && a.Work? && a.id == id { FinishedIsQuiet(r.jobs[id], a.move, r.cancelled); }
  }

  lemma FinishedIsQuiet(j: Job, m: Move, cancelled: bool)
    requires Inv(j) && j.phase.Finished? && Jobs.Enabled(j, m, cancelled)
    ensures Stepped(j, m).log == j.log
  {
  }
}
