/** One background job: the job itself, the goroutines it reports from, and the sender that posts its
    progress. Every step below is one that the scheduler may interleave with any other. */
module Jobs {

  type Update = string

  const PROGRESS_RETRIES: nat := 3
  const TERMINAL_RETRIES: nat := 100
  const PROGRESS_BUFFER: nat := 64

  /** Where the goroutine that runs the job is. `attempt` counts posts already tried. */
  datatype Phase =
    | Fetching
    | Starting(attempt: nat)
    | Running
    | Closing(failed: bool)
    | Flushing(failed: bool)
    | Discarding(failed: bool)
    | Ending(failed: bool, attempt: nat)
    | Telling(failed: bool)
    | Finished(failed: bool)

  datatype Sender = Absent | Idle | Got(update: Update) | Posting(update: Update, attempt: nat)
                  | Ticked | Beating | Done

  /** A progress call in flight. It holds the read lock, and `cleared` once it has seen the stream open. */
  datatype Call = Call(update: Update, cleared: bool)

  datatype Note = Began | Progress(update: Update) | Heartbeat

  /** Calls to the task service, with whether they succeeded, and the notification. */
  datatype Event = AddStatus(note: Note, ok: bool) | AddCompletedStatus(failed: bool, ok: bool) | Notified(failed: bool)

  /** `calls`, `accepted`, `taken`, `tried` and `landed` are what has happened so far to progress updates:
      reported, buffered, received by the sender, posted at least once, posted successfully. `lost` counts
      those given up on. */
  datatype Job = Job(notifies: bool, known: bool, phase: Phase, queue: seq<Update>, closed: bool, stopped: bool,
                     panicked: bool, inCalls: map<nat, Call>, sender: Sender, log: seq<Event>,
                     calls: seq<Update>, accepted: seq<Update>, taken: seq<Update>, tried: seq<Update>,
                     landed: seq<Update>, lost: nat)

  function Fresh(notifies: bool): Job {
    Job(notifies, false, Fetching, [], false, false, false, map[], Absent, [], [], [], [], [], [], 0)
  }

  datatype Move =
    | Fetch(ok: bool)
    | PostStarted(ok: bool)
    | CutStarted
    | Enter(h: nat, update: Update)
    | Look(h: nat)
    | Send(h: nat)
    | Return(failed: bool)
    | CloseStream
    | Flushed
    | FlushTimeout
    | Receive
    | Judge
    | PostProgress(ok: bool)
    | CutProgress
    | Tick
    | JudgeTick(silentTooLong: bool)
    | Beat(ok: bool)
    | PostTerminal(ok: bool)
    | TerminalDeadline
    | Notify

  predicate Reporting(j: Job) { j.sender != Absent }

  /** `cancelled` is whether the runner has been told to shut down. */
  predicate Enabled(j: Job, m: Move, cancelled: bool) {
    match m
    case Fetch(_) => j.phase.Fetching?
    case PostStarted(_) => j.phase.Starting?
    case CutStarted => j.phase.Starting? && 0 < j.phase.attempt && cancelled
    case Enter(h, _) => Reporting(j) && h !in j.inCalls
    case Look(h) => h in j.inCalls && !j.inCalls[h].cleared
    case Send(h) => h in j.inCalls && j.inCalls[h].cleared
    case Return(_) => j.phase.Running?
    case CloseStream => j.phase.Closing? && j.inCalls == map[]
    case Flushed => (j.phase.Flushing? || j.phase.Discarding?) && j.sender.Done?
    case FlushTimeout => j.phase.Flushing? && j.inCalls == map[]
    case Receive => j.sender.Idle? && (j.queue != [] || j.closed)
    case Judge => j.sender.Got?
    case PostProgress(_) => j.sender.Posting?
    case CutProgress => j.sender.Posting? && 0 < j.sender.attempt && cancelled
    case Tick => j.sender.Idle?
    case JudgeTick(_) => j.sender.Ticked?
    case Beat(_) => j.sender.Beating?
    case PostTerminal(_) => j.phase.Ending?
    case TerminalDeadline => j.phase.Ending? && 0 < j.phase.attempt
    case Notify => j.phase.Telling?
  }

  function AfterEnding(j: Job): Phase
    requires j.phase.Ending?
  {
    if j.known && j.notifies then Telling(j.phase.failed) else Finished(j.phase.failed)
  }

  predicate IsCall(m: Move) { m.Enter? || m.Look? || m.Send? }

  predicate IsSender(m: Move) {
    m.Receive? || m.Judge? || m.PostProgress? || m.CutProgress? || m.Tick? || m.JudgeTick? || m.Beat?
  }

  /** What was posted, untouched. */
  predicate SamePosts(j: Job, k: Job) { k.tried == j.tried && k.landed == j.landed && k.lost == j.lost }

  /** A step of a progress call. */
  function Called(j: Job, m: Move): (k: Job)
    requires Enabled(j, m, true) && IsCall(m)
    ensures k.notifies == j.notifies && k.phase == j.phase && k.log == j.log && k.sender == j.sender
    ensures k.known == j.known && k.taken == j.taken && k.stopped == j.stopped && SamePosts(j, k)
  {
    match m
    case Enter(h, u) => j.(inCalls := j.inCalls[h := Call(u, false)])
    case Look(h) =>
      var u := j.inCalls[h].update;
      if j.closed then j.(inCalls := j.inCalls - {h}, calls := j.calls + [u])
      else j.(inCalls := j.inCalls[h := Call(u, true)])
    case Send(h) =>
      var u := j.inCalls[h].update;
      var k := j.(inCalls := j.inCalls - {h}, calls := j.calls + [u]);
      if j.closed then k.(panicked := true)
      else if |j.queue| < PROGRESS_BUFFER then k.(queue := j.queue + [u], accepted := j.accepted + [u])
      else k
  }

  /** A step of the sender. */
  function Sent(j: Job, m: Move): (k: Job)
    requires Enabled(j, m, true) && IsSender(m)
    ensures k.notifies == j.notifies && k.phase == j.phase && k.closed == j.closed && k.inCalls == j.inCalls
    ensures k.known == j.known && k.calls == j.calls && k.accepted == j.accepted
  {
    match m
    case Receive =>
      if j.queue == [] then j.(sender := Done)
      else j.(sender := Got(j.queue[0]), queue := j.queue[1..], taken := j.taken + [j.queue[0]])
    case Judge =>
      if j.stopped then j.(sender := Idle) else j.(sender := Posting(j.sender.update, 0))
    case PostProgress(ok) =>
      var u, n := j.sender.update, j.sender.attempt;
      var k := j.(log := j.log + [AddStatus(Progress(u), ok)], tried := if n == 0 then j.tried + [u] else j.tried);
      if ok then k.(sender := Idle, landed := j.landed + [u])
      else if n + 1 == PROGRESS_RETRIES then k.(sender := Idle, lost := j.lost + 1)
      else k.(sender := Posting(u, n + 1))
    case CutProgress => j.(sender := Idle, lost := j.lost + 1)
    case Tick => j.(sender := Ticked)
    case JudgeTick(silent) => if j.closed || silent then j.(sender := Idle) else j.(sender := Beating)
    case Beat(ok) => j.(log := j.log + [AddStatus(Heartbeat, ok)], sender := Idle)
  }

  /** What was reported and buffered, untouched. */
  predicate SameBuffer(j: Job, k: Job) {
    k.calls == j.calls && k.accepted == j.accepted && k.taken == j.taken && k.queue == j.queue
  }

  /** A step of the goroutine that runs the job. */
  function Driven(j: Job, m: Move): (k: Job)
    requires Enabled(j, m, true) && !IsCall(m) && !IsSender(m)
    ensures k.notifies == j.notifies && k.inCalls == j.inCalls && !j.phase.Finished? && SameBuffer(j, k)
    ensures SamePosts(j, k) && (j.stopped ==> k.stopped)
  {
    match m
    case Fetch(ok) =>
      if ok then j.(known := true, phase := Starting(0)) else j.(phase := Ending(true, 0))
    case PostStarted(ok) =>
      var k := j.(log := j.log + [AddStatus(Began, ok)]);
      if ok || j.phase.attempt + 1 == PROGRESS_RETRIES then k.(phase := Running, sender := Idle)
      else k.(phase := Starting(j.phase.attempt + 1))
    case CutStarted => j.(phase := Running, sender := Idle)
    case Return(failed) => j.(phase := Closing(failed))
    case CloseStream => j.(phase := Flushing(j.phase.failed), closed := true)
    case Flushed => j.(phase := Ending(j.phase.failed, 0))
    case FlushTimeout => j.(phase := Discarding(j.phase.failed), stopped := true)
    case PostTerminal(ok) =>
      var k := j.(log := j.log + [AddCompletedStatus(j.phase.failed, ok)]);
      if ok || j.phase.attempt + 1 == TERMINAL_RETRIES then k.(phase := AfterEnding(j))
      else k.(phase := Ending(j.phase.failed, j.phase.attempt + 1))
    case TerminalDeadline => j.(phase := AfterEnding(j))
    case Notify => j.(log := j.log + [Notified(j.phase.failed)], phase := Finished(j.phase.failed))
  }

  function Stepped(j: Job, m: Move): Job
    requires Enabled(j, m, true)
  {
    if IsCall(m) then Called(j, m) else if IsSender(m) then Sent(j, m) else Driven(j, m)
  }

  /** One status, posted until it lands. `outcomes` is what each try would meet, and `done` the first retry
      that finds its context over. */
  method Post(outcomes: seq<bool>, done: nat) returns (tries: nat, landed: bool)
    requires 0 < |outcomes| && 0 < done
    ensures 1 <= tries <= |outcomes| && tries <= done
    ensures landed <==> outcomes[tries - 1]
    ensures forall i :: 0 <= i < tries - 1 ==> !outcomes[i]
    ensures !landed ==> tries == |outcomes| || tries == done
  {
    var attempt := 0;
    while attempt < |outcomes|
      invariant attempt <= |outcomes| && attempt <= done
      invariant forall i :: 0 <= i < attempt ==> !outcomes[i]
    {
      if 0 < attempt && attempt == done {
        return attempt, false;
      }
      if outcomes[attempt] {
        return attempt + 1, true;
      }
      attempt := attempt + 1;
    }
    return attempt, false;
  }

  // ----- Subsequences -----

  predicate Within(a: seq<Update>, b: seq<Update>) {
    a == []
    || (b != [] && ((a[|a| - 1] == b[|b| - 1] && Within(a[..|a| - 1], b[..|b| - 1])) || Within(a, b[..|b| - 1])))
  }

  lemma WithinGrows(a: seq<Update>, b: seq<Update>, x: Update)
    requires Within(a, b)
    ensures Within(a, b + [x]) && Within(a + [x], b + [x])
  {
    assert (b + [x])[..|b|] == b && (a + [x])[..|a|] == a;
  }

  lemma {:induction false} WithinTrans(a: seq<Update>, b: seq<Update>, c: seq<Update>)
    requires Within(a, b) && Within(b, c)
    ensures Within(a, c)
    decreases |a| + |b| + |c|
  {
    if a != [] && b != [] {
      if b[|b| - 1] == c[|c| - 1] && Within(b[..|b| - 1], c[..|c| - 1]) {
        if a[|a| - 1] == b[|b| - 1] && Within(a[..|a| - 1], b[..|b| - 1]) {
          WithinTrans(a[..|a| - 1], b[..|b| - 1], c[..|c| - 1]);
        } else {
          WithinTrans(a, b[..|b| - 1], c[..|c| - 1]);
        }
      } else {
        WithinTrans(a, b, c[..|c| - 1]);
      }
    }
  }

  lemma {:induction false} PrefixIsWithin(a: seq<Update>, b: seq<Update>)
    ensures Within(a, a + b)
    decreases |b|
  {
    if b == [] {
      WithinItself(a);
      assert a + b == a;
    } else {
      PrefixIsWithin(a, b[..|b| - 1]);
      assert (a + b)[..|a + b| - 1] == a + b[..|b| - 1];
    }
  }

  lemma {:induction false} WithinItself(a: seq<Update>)
    ensures Within(a, a)
  {
    if a != [] { WithinItself(a[..|a| - 1]); }
  }

  // ----- What holds throughout -----

  predicate EndPhase(p: Phase) { p.Ending? || p.Telling? || p.Finished? }

  datatype Sort = IsTerminal | IsSuccess | IsNotice

  predicate Fits(e: Event, sort: Sort) {
    match sort
    case IsTerminal => e.AddCompletedStatus?
    case IsSuccess => e.AddCompletedStatus? && e.ok
    case IsNotice => e.Notified?
  }

  function Count(log: seq<Event>, sort: Sort): nat {
    if log == [] then 0 else Count(log[..|log| - 1], sort) + if Fits(log[|log| - 1], sort) then 1 else 0
  }

  /** No status once a terminal one was tried, no terminal one once one succeeded, and the user is told
      once, after a terminal one was tried, and last. */
  predicate MayFollow(log: seq<Event>, e: Event) {
    && Count(log, IsNotice) == 0
    && (e.AddStatus? ==> Count(log, IsTerminal) == 0)
    && (e.AddCompletedStatus? ==> Count(log, IsSuccess) == 0)
    && (e.Notified? ==> 0 < Count(log, IsTerminal))
  }

  predicate Ordered(log: seq<Event>) {
    log == [] || (Ordered(log[..|log| - 1]) && MayFollow(log[..|log| - 1], log[|log| - 1]))
  }

  /** Every terminal status and notice says the same. */
  predicate AllSay(log: seq<Event>, failed: bool) {
    log == [] || (AllSay(log[..|log| - 1], failed) && (log[|log| - 1].AddStatus? || log[|log| - 1].failed == failed))
  }

  /** The stream is open and closed when the phases say, and the sender is gone before the end. */
  ghost predicate Stream(j: Job) {
    && !j.panicked
    && (j.closed <==> j.phase.Flushing? || j.phase.Discarding? || (EndPhase(j.phase) && j.known))
    && (forall h :: h in j.inCalls && j.inCalls[h].cleared ==> !j.closed)
    && (j.phase.Fetching? || j.phase.Starting? || (EndPhase(j.phase) && !j.known) <==> j.sender.Absent?)
    && (j.sender.Done? ==> j.closed && j.queue == [])
    && (EndPhase(j.phase) && j.known ==> j.sender.Done?)
    && (j.sender.Absent? ==> j.inCalls == map[])
    && (j.stopped ==> j.closed)
    && (j.phase.Flushing? ==> !j.stopped)
    && (j.phase.Fetching? ==> !j.known)
    && (!j.known ==> j.phase.Fetching? || EndPhase(j.phase))
    && (j.phase.Telling? ==> j.known && j.notifies)
  }

  ghost predicate Logged(j: Job) {
    var terminals, successes, notices := Count(j.log, IsTerminal), Count(j.log, IsSuccess), Count(j.log, IsNotice);
    && Ordered(j.log)
    && (EndPhase(j.phase) ==> AllSay(j.log, j.phase.failed))
    && (!EndPhase(j.phase) ==> terminals == successes == notices == 0 && AllSay(j.log, true) && AllSay(j.log, false))
    && (j.phase.Ending? ==> terminals == j.phase.attempt < TERMINAL_RETRIES && successes == notices == 0)
    && (j.phase.Telling? || j.phase.Finished? ==> 1 <= terminals <= TERMINAL_RETRIES && successes <= 1)
    && (j.phase.Telling? ==> notices == 0)
    && (j.phase.Finished? ==> notices == if j.known && j.notifies then 1 else 0)
  }

  /** Updates in hand that have not been tried. */
  function InHand(s: Sender): seq<Update> {
    if s.Got? then [s.update] else if s.Posting? && s.attempt == 0 then [s.update] else []
  }

  function Undecided(s: Sender): nat { if s.Posting? && 0 < s.attempt then 1 else 0 }

  /** What was reported, buffered and received. */
  ghost predicate Buffered(j: Job) {
    j.accepted == j.taken + j.queue && Within(j.accepted, j.calls) && |j.queue| <= PROGRESS_BUFFER
  }

  /** What was received, tried and posted. */
  ghost predicate Posted(j: Job) {
    && (!j.stopped ==> j.taken == j.tried + InHand(j.sender))
    && Within(j.tried + InHand(j.sender), j.taken)
    && Within(j.landed, j.tried)
    && |j.tried| == |j.landed| + j.lost + Undecided(j.sender)
    && (j.sender.Posting? && 0 < j.sender.attempt ==>
         j.tried != [] && j.tried[|j.tried| - 1] == j.sender.update && Within(j.landed, j.tried[..|j.tried| - 1]))
    && (j.sender.Posting? ==> j.sender.attempt < PROGRESS_RETRIES)
  }

  ghost predicate Conserved(j: Job) { Buffered(j) && Posted(j) && (j.phase.Starting? ==> j.phase.attempt < PROGRESS_RETRIES) }

  ghost predicate Inv(j: Job) { Stream(j) && Logged(j) && Conserved(j) }

  lemma FreshIsFine(notifies: bool)
    ensures Inv(Fresh(notifies))
  {
  }

  lemma StreamKeptByCalls(j: Job, m: Move, cancelled: bool)
    requires Stream(j) && Enabled(j, m, cancelled) && IsCall(m)
    ensures Stream(Stepped(j, m))
  {
  }

  lemma StreamKeptBySender(j: Job, m: Move, cancelled: bool)
    requires Stream(j) && Enabled(j, m, cancelled) && IsSender(m)
    ensures Stream(Stepped(j, m))
  {
  }

  lemma StreamKeptByRunner(j: Job, m: Move, cancelled: bool)
    requires Stream(j) && Enabled(j, m, cancelled) && !IsCall(m) && !IsSender(m)
    ensures Stream(Stepped(j, m))
  {
  }

  lemma StreamKept(j: Job, m: Move, cancelled: bool)
    requires Stream(j) && Enabled(j, m, cancelled)
    ensures Stream(Stepped(j, m))
  {
    if IsCall(m) {
      StreamKeptByCalls(j, m, cancelled);
    } else if IsSender(m) {
      StreamKeptBySender(j, m, cancelled);
    } else {
      StreamKeptByRunner(j, m, cancelled);
    }
  }

  lemma Appended(log: seq<Event>, e: Event)
    ensures forall sort :: Count(log + [e], sort) == Count(log, sort) + if Fits(e, sort) then 1 else 0
    ensures Ordered(log + [e]) <==> Ordered(log) && MayFollow(log, e)
    ensures forall failed :: AllSay(log + [e], failed) <==> AllSay(log, failed) && (e.AddStatus? || e.failed == failed)
  {
    var l := log + [e];
    assert l[..|l| - 1] == log && l[|l| - 1] == e;
  }

  lemma LogKeptBySender(j: Job, m: Move)
    requires Stream(j) && Logged(j) && Enabled(j, m, true) && IsSender(m)
    ensures Logged(Sent(j, m))
  {
    match m
    case PostProgress(ok) => StatusLogged(j, Sent(j, m), AddStatus(Progress(j.sender.update), ok));
    case Beat(ok) => StatusLogged(j, Sent(j, m), AddStatus(Heartbeat, ok));
    case _ =>
  }

  lemma {:induction false} LogKeptByRunner(j: Job, m: Move)
    requires Stream(j) && Logged(j) && Enabled(j, m, true) && !IsCall(m) && !IsSender(m)
    ensures Logged(Driven(j, m))
  {
    match m
    case PostStarted(ok) => StatusLogged(j, Driven(j, m), AddStatus(Began, ok));
    case PostTerminal(ok) => TerminalLogged(j, Driven(j, m), ok);
    case Notify => NoticeLogged(j);
    case _ => QuietlyLogged(j, m);
  }

  lemma {:induction false} LogKept(j: Job, m: Move, cancelled: bool)
    requires Stream(j) && Logged(j) && Enabled(j, m, cancelled)
    ensures Logged(Stepped(j, m))
  {
    if IsCall(m) {
      assert Called(j, m).log == j.log;
    } else if IsSender(m) {
      LogKeptBySender(j, m);
    } else {
      LogKeptByRunner(j, m);
    }
  }

  lemma QuietlyLogged(j: Job, m: Move)
    requires Stream(j) && Logged(j) && Enabled(j, m, true) && !IsCall(m) && !IsSender(m) && Driven(j, m).log == j.log
    ensures Logged(Driven(j, m))
  {
  }

  lemma TerminalLogged(j: Job, k: Job, ok: bool)
    requires Logged(j) && j.phase.Ending? && k.log == j.log + [AddCompletedStatus(j.phase.failed, ok)]
    requires k.known == j.known && k.notifies == j.notifies
    requires k.phase == if ok || j.phase.attempt + 1 == TERMINAL_RETRIES then AfterEnding(j)
                        else Ending(j.phase.failed, j.phase.attempt + 1)
    ensures Logged(k)
  {
    Appended(j.log, AddCompletedStatus(j.phase.failed, ok));
  }

  lemma NoticeLogged(j: Job)
    requires Stream(j) && Logged(j) && j.phase.Telling?
    ensures Logged(Stepped(j, Notify))
  {
    Appended(j.log, Notified(j.phase.failed));
  }

  lemma StatusLogged(j: Job, k: Job, e: Event)
    requires Logged(j) && !EndPhase(j.phase) && !EndPhase(k.phase) && e.AddStatus? && k.log == j.log + [e]
    ensures Logged(k)
  {
    Appended(j.log, e);
  }

  lemma {:induction false} BufferKept(j: Job, m: Move, cancelled: bool)
    requires Stream(j) && Buffered(j) && Enabled(j, m, cancelled)
    ensures Buffered(Stepped(j, m))
  {
    match m
    case Look(h) => LookBuffers(j, h);
    case Send(h) => SendBuffers(j, h);
    case Receive => ReceiveBuffers(j);
    case _ => OthersBuffer(j, m);
  }

  lemma LookBuffers(j: Job, h: nat)
    requires Buffered(j) && Enabled(j, Look(h), true)
    ensures Buffered(Called(j, Look(h)))
  {
    WithinGrows(j.accepted, j.calls, j.inCalls[h].update);
  }

  lemma ReceiveBuffers(j: Job)
    requires Buffered(j) && Enabled(j, Receive, true)
    ensures Buffered(Sent(j, Receive))
  {
    if j.queue != [] { assert j.taken + [j.queue[0]] + j.queue[1..] == j.taken + j.queue; }
  }

  lemma OthersBuffer(j: Job, m: Move)
    requires Buffered(j) && Enabled(j, m, true) && !m.Look? && !m.Send? && !m.Receive?
    ensures Buffered(Stepped(j, m))
  {
    if IsSender(m) {
      SendersBuffer(j, m);
    }
  }

  lemma SendersBuffer(j: Job, m: Move)
    requires Enabled(j, m, true) && IsSender(m) && !m.Receive?
    ensures SameBuffer(j, Sent(j, m))
  {
    match m
    case Judge =>
    case PostProgress(_) =>
    case CutProgress =>
    case Tick =>
    case JudgeTick(_) =>
    case Beat(_) =>
  }

  lemma SendBuffers(j: Job, h: nat)
    requires Buffered(j) && Enabled(j, Send(h), true)
    ensures Buffered(Called(j, Send(h)))
  {
    var u := j.inCalls[h].update;
    WithinGrows(j.accepted, j.calls, u);
    assert j.taken + (j.queue + [u]) == j.taken + j.queue + [u];
  }

  lemma PostedKept(j: Job, m: Move, cancelled: bool)
    requires Stream(j) && Posted(j) && Enabled(j, m, cancelled)
    ensures Posted(Stepped(j, m))
  {
    match m
    case Receive => if j.queue != [] { TakingConserves(j); }
    case Judge => JudgingConserves(j);
    case PostProgress(ok) =>
      if j.sender.attempt == 0 { FirstPostConserves(j, ok); } else { RetryConserves(j, ok); }
    case CutProgress => assert j.tried + [] == j.tried;
    case _ => OthersConserve(j, m);
  }

  predicate HoldsUpdate(s: Sender) { s.Got? || s.Posting? }

  lemma SamePosted(j: Job, k: Job)
    requires Posted(j) && (j.stopped ==> k.stopped)
    requires k.taken == j.taken && k.tried == j.tried && k.landed == j.landed && k.lost == j.lost
    requires k.sender == j.sender || (!HoldsUpdate(j.sender) && !HoldsUpdate(k.sender))
    ensures Posted(k)
  {
    assert InHand(k.sender) == InHand(j.sender) && Undecided(k.sender) == Undecided(j.sender);
  }

  lemma OthersConserve(j: Job, m: Move)
    requires Stream(j) && Posted(j) && Enabled(j, m, true)
    requires !m.Receive? && !m.Judge? && !m.PostProgress? && !m.CutProgress?
    ensures Posted(Stepped(j, m))
  {
    if IsSender(m) {
      TicksConserve(j, m);
    } else {
      SamePosted(j, Stepped(j, m));
    }
  }

  lemma TicksConserve(j: Job, m: Move)
    requires Posted(j) && Enabled(j, m, true) && (m.Tick? || m.JudgeTick? || m.Beat?)
    ensures Posted(Sent(j, m))
  {
    SamePosted(j, Sent(j, m));
  }

  lemma {:induction false} ProgressKept(j: Job, m: Move, cancelled: bool)
    requires Stream(j) && Conserved(j) && Enabled(j, m, cancelled)
    ensures Conserved(Stepped(j, m))
  {
    BufferKept(j, m, cancelled);
    PostedKept(j, m, cancelled);
  }

  lemma JudgingConserves(j: Job)
    requires Stream(j) && Posted(j) && j.sender.Got?
    ensures Posted(Stepped(j, Judge))
  {
    var k := Sent(j, Judge);
    DroppingIsWithin(j.tried, j.taken, j.sender.update);
    assert k.tried == j.tried && k.taken == j.taken && k.landed == j.landed && k.lost == j.lost && k.stopped == j.stopped;
    assert InHand(k.sender) == if j.stopped then [] else InHand(j.sender);
  }

  lemma {:induction false} DroppingIsWithin(a: seq<Update>, b: seq<Update>, x: Update)
    ensures Within(a + [x], b) ==> Within(a + [], b)
    decreases |b|
  {
    if Within(a + [x], b) {
      assert a + [] == a && (a + [x])[..|a|] == a;
      if x == b[|b| - 1] && Within(a, b[..|b| - 1]) {
        assert b[..|b| - 1] + [b[|b| - 1]] == b;
        WithinGrows(a, b[..|b| - 1], b[|b| - 1]);
      } else {
        DroppingIsWithin(a, b[..|b| - 1], x);
        assert b[..|b| - 1] + [b[|b| - 1]] == b;
        WithinGrows(a, b[..|b| - 1], b[|b| - 1]);
      }
    }
  }

  lemma TakingConserves(j: Job)
    requires Stream(j) && Posted(j) && j.sender.Idle? && j.queue != []
    ensures Posted(Stepped(j, Receive))
  {
    var u, k := j.queue[0], Stepped(j, Receive);
    assert j.tried + InHand(j.sender) == j.tried;
    WithinGrows(j.tried, j.taken, u);
    assert k.tried + InHand(k.sender) == j.tried + [u];
  }

  lemma FirstPostConserves(j: Job, ok: bool)
    requires Stream(j) && Posted(j) && j.sender.Posting? && j.sender.attempt == 0
    ensures Posted(Stepped(j, PostProgress(ok)))
  {
    var u, k := j.sender.update, Sent(j, PostProgress(ok));
    assert k.tried == j.tried + [u] == j.tried + InHand(j.sender);
    assert k.tried + InHand(k.sender) == k.tried;
    FirstPostWithin(j, ok);
  }

  lemma FirstPostWithin(j: Job, ok: bool)
    requires Posted(j) && j.sender.Posting? && j.sender.attempt == 0
    ensures var k := Sent(j, PostProgress(ok)); Within(k.landed, k.tried)
    ensures var t := j.tried + [j.sender.update]; t[..|t| - 1] == j.tried
  {
    WithinGrows(j.landed, j.tried, j.sender.update);
  }

  lemma RetryConserves(j: Job, ok: bool)
    requires Stream(j) && Posted(j) && j.sender.Posting? && 0 < j.sender.attempt
    ensures Posted(Stepped(j, PostProgress(ok)))
  {
    if ok { RetryLands(j); } else { RetryFails(j); }
  }

  lemma RetryFails(j: Job)
    requires Stream(j) && Posted(j) && j.sender.Posting? && 0 < j.sender.attempt
    ensures Posted(Stepped(j, PostProgress(false)))
  {
    var k := Sent(j, PostProgress(false));
    assert k.tried == j.tried && k.taken == j.taken && k.landed == j.landed && k.stopped == j.stopped;
    assert k.tried + InHand(k.sender) == j.tried == j.tried + InHand(j.sender);
  }

  lemma LandsWithin(landed: seq<Update>, tried: seq<Update>)
    requires tried != [] && Within(landed, tried[..|tried| - 1])
    ensures Within(landed + [tried[|tried| - 1]], tried)
  {
    WithinGrows(landed, tried[..|tried| - 1], tried[|tried| - 1]);
    assert tried[..|tried| - 1] + [tried[|tried| - 1]] == tried;
  }

  lemma {:induction false} RetryLands(j: Job)
    requires Stream(j) && Posted(j) && j.sender.Posting? && 0 < j.sender.attempt
    ensures Posted(Stepped(j, PostProgress(true)))
  {
    var k := Stepped(j, PostProgress(true));
    LandsWithin(j.landed, j.tried);
    assert k.tried + InHand(k.sender) == j.tried == j.tried + InHand(j.sender);
  }

  lemma {:induction false} StepKeepsInv(j: Job, m: Move, cancelled: bool)
    requires Inv(j) && Enabled(j, m, cancelled)
    ensures Inv(Stepped(j, m))
  {
    StreamKept(j, m, cancelled);
    LogKept(j, m, cancelled);
    ProgressKept(j, m, cancelled);
  }

  // ----- Every run of a job -----

  datatype Choice = Take(move: Move, cancelled: bool)

  function Moved(j: Job, choice: Choice): Job {
    if Enabled(j, choice.move, choice.cancelled) then Stepped(j, choice.move) else j
  }

  /** The job after some moves, each taken if it was enabled. Shutting down is never taken back, but
      nothing here needs that. */
  function After(notifies: bool, moves: seq<Choice>): Job {
    if moves == [] then Fresh(notifies) else Moved(After(notifies, moves[..|moves| - 1]), moves[|moves| - 1])
  }

  lemma {:induction false} MovedKeepsInv(j: Job, choice: Choice)
    requires Inv(j)
    ensures Inv(Moved(j, choice))
  {
    if Enabled(j, choice.move, choice.cancelled) {
      StepKeepsInv(j, choice.move, choice.cancelled);
      assert Moved(j, choice) == Stepped(j, choice.move);
    }
  }

  lemma {:induction false} RunsKeepInv(notifies: bool, moves: seq<Choice>)
    ensures Inv(After(notifies, moves)) && After(notifies, moves).notifies == notifies
  {
    if moves == [] {
      FreshIsFine(notifies);
    } else {
      RunsKeepInv(notifies, moves[..|moves| - 1]);
      MovedKeepsInv(After(notifies, moves[..|moves| - 1]), moves[|moves| - 1]);
      MovedKeepsKind(After(notifies, moves[..|moves| - 1]), moves[|moves| - 1]);
    }
  }

  lemma {:induction false} StepKeepsKind(j: Job, m: Move)
    requires Enabled(j, m, true)
    ensures Stepped(j, m).notifies == j.notifies
    ensures j.phase.Finished? ==> Stepped(j, m).phase.Finished?
  {
  }

  lemma {:induction false} MovedKeepsKind(j: Job, choice: Choice)
    ensures Moved(j, choice).notifies == j.notifies
  {
    if Enabled(j, choice.move, choice.cancelled) { StepKeepsKind(j, choice.move); }
  }

  lemma {:induction false} CountedIs(log: seq<Event>, sort: Sort, i: nat)
    requires i < |log| && Fits(log[i], sort)
    ensures 0 < Count(log, sort)
  {
    if i < |log| - 1 { CountedIs(log[..|log| - 1], sort, i); }
  }

  lemma {:induction false} OrderedAt(log: seq<Event>, i: nat, k: nat)
    requires Ordered(log) && i < k < |log|
    ensures log[i].AddCompletedStatus? ==> !log[k].AddStatus?
    ensures Fits(log[i], IsSuccess) ==> !log[k].AddCompletedStatus?
    ensures !log[i].Notified?
  {
    if k < |log| - 1 {
      OrderedAt(log[..|log| - 1], i, k);
    } else {
      var front := log[..|log| - 1];
      if Fits(front[i], IsTerminal) { CountedIs(front, IsTerminal, i); }
      if Fits(front[i], IsSuccess) { CountedIs(front, IsSuccess, i); }
      if Fits(front[i], IsNotice) { CountedIs(front, IsNotice, i); }
    }
  }

  /** Main result: in no run is a status posted after a terminal one was first tried, a terminal one tried
      after one succeeded, or anything posted after the user was told. */
  lemma {:induction false} NothingAfterTheEnd(notifies: bool, moves: seq<Choice>, i: nat, k: nat)
    requires i < k < |After(notifies, moves).log|
    ensures var log := After(notifies, moves).log;
            && (log[i].AddCompletedStatus? ==> !log[k].AddStatus?)
            && (Fits(log[i], IsSuccess) ==> !log[k].AddCompletedStatus?)
            && !log[i].Notified?
  {
    RunsKeepInv(notifies, moves);
    OrderedAt(After(notifies, moves).log, i, k);
  }

  /** Main result: in no run does a progress call send on the closed stream. */
  lemma {:induction false} NeverSendsOnClosed(notifies: bool, moves: seq<Choice>)
    ensures !After(notifies, moves).panicked
  {
    RunsKeepInv(notifies, moves);
  }

  /** Main result: what is posted is an in-order part of what was reported; and once the sender is done,
      it is everything that was buffered, unless the flush timed out, with each update either landed or
      counted as lost. */
  lemma {:induction false} ProgressIsFaithful(notifies: bool, moves: seq<Choice>)
    ensures var j := After(notifies, moves);
            && Within(j.landed, j.tried) && Within(j.tried, j.accepted) && Within(j.accepted, j.calls)
            && Within(j.landed, j.calls)
            && (j.sender.Done? && !j.stopped ==> j.tried == j.accepted && |j.accepted| == |j.landed| + j.lost)
            && (j.sender.Done? && !j.stopped && j.lost == 0 ==> j.landed == j.accepted)
  {
    RunsKeepInv(notifies, moves);
    var j := After(notifies, moves);
    TriedIsWithin(j);
    PrefixIsWithin(j.taken, j.queue);
    WithinTrans(j.tried, j.taken, j.accepted);
    WithinTrans(j.landed, j.tried, j.accepted);
    WithinTrans(j.landed, j.accepted, j.calls);
    if j.sender.Done? && !j.stopped {
      assert j.tried + [] == j.tried && j.taken + [] == j.taken;
      if j.lost == 0 { WholeWithin(j.landed, j.tried); }
    }
  }

  lemma {:induction false} TriedIsWithin(j: Job)
    requires Posted(j)
    ensures Within(j.tried, j.taken)
  {
    if InHand(j.sender) == [] {
      assert j.tried + [] == j.tried;
    } else {
      DroppingIsWithin(j.tried, j.taken, InHand(j.sender)[0]);
      assert j.tried + [] == j.tried;
    }
  }

  lemma {:induction false} WithinIsNoLonger(a: seq<Update>, b: seq<Update>)
    requires Within(a, b)
    ensures |a| <= |b|
    decreases |b|
  {
    if a != [] {
      if a[|a| - 1] == b[|b| - 1] && Within(a[..|a| - 1], b[..|b| - 1]) {
        WithinIsNoLonger(a[..|a| - 1], b[..|b| - 1]);
      } else {
        WithinIsNoLonger(a, b[..|b| - 1]);
      }
    }
  }

  lemma {:induction false} WholeWithin(a: seq<Update>, b: seq<Update>)
    requires Within(a, b) && |a| == |b|
    ensures a == b
    decreases |b|
  {
    if a != [] {
      if a[|a| - 1] == b[|b| - 1] && Within(a[..|a| - 1], b[..|b| - 1]) {
        WholeWithin(a[..|a| - 1], b[..|b| - 1]);
        assert a == a[..|a| - 1] + [a[|a| - 1]] && b == b[..|b| - 1] + [b[|b| - 1]];
      } else {
        WithinIsNoLonger(a, b[..|b| - 1]);
      }
    }
  }

  /** Main result: a job that has finished tried its terminal status at least once and at most the allowed
      number of times, succeeding at most once; every try and the notice say whether it failed, and the user
      is told exactly when the task could be read and the job notifies. */
  lemma {:induction false} FinishedMeansTried(notifies: bool, moves: seq<Choice>)
    requires After(notifies, moves).phase.Finished?
    ensures var j := After(notifies, moves);
            && 1 <= Count(j.log, IsTerminal) <= TERMINAL_RETRIES && Count(j.log, IsSuccess) <= 1
            && Count(j.log, IsNotice) == (if j.known && notifies then 1 else 0)
            && AllSay(j.log, j.phase.failed)
  {
    RunsKeepInv(notifies, moves);
  }

  /** Once its work is over a job is never stuck: until it finishes, some step of its own or of what it
      waits for can be taken. */
  lemma {:induction false} NeverStuck(j: Job, cancelled: bool) returns (m: Move)
    requires Inv(j) && !j.phase.Finished?
    ensures Enabled(j, m, cancelled) && !m.Enter? && !m.Tick?
  {
    if h :| h in j.inCalls {
      m := if j.inCalls[h].cleared then Send(h) else Look(h);
    } else {
      assert j.inCalls == map[];
      match j.phase
      case Fetching => m := Fetch(true);
      case Starting(_) => m := PostStarted(true);
      case Running => m := Return(false);
      case Closing(_) => m := CloseStream;
      case Flushing(_) => m := SenderMove(j, cancelled);
      case Discarding(_) => m := SenderMove(j, cancelled);
      case Ending(_, _) => m := PostTerminal(true);
      case Telling(_) => m := Notify;
    }
  }

  lemma {:induction false} SenderMove(j: Job, cancelled: bool) returns (m: Move)
    requires Inv(j) && (j.phase.Flushing? || j.phase.Discarding?)
    ensures Enabled(j, m, cancelled) && !m.Enter? && !m.Tick?
  {
    match j.sender
    case Absent => assert false;
    case Idle => m := Receive;
    case Got(_) => m := Judge;
    case Posting(_, _) => m := PostProgress(true);
    case Ticked => m := JudgeTick(true);
    case Beating => m := Beat(true);
    case Done => m := Flushed;
  }

  // ----- And it ends -----

  /** Calls that have not seen the stream yet. */
  function Unseeing(calls: map<nat, Call>): set<nat> { set h | h in calls && !calls[h].cleared }

  /** What the goroutine that runs the job has yet to do, at most. */
  function PhaseLeft(p: Phase): int {
    match p
    case Fetching => TERMINAL_RETRIES + PROGRESS_RETRIES + 8
    case Starting(attempt) => TERMINAL_RETRIES + PROGRESS_RETRIES + 7 - attempt
    case Running => TERMINAL_RETRIES + 6
    case Closing(_) => TERMINAL_RETRIES + 5
    case Flushing(_) => TERMINAL_RETRIES + 4
    case Discarding(_) => TERMINAL_RETRIES + 3
    case Ending(_, attempt) => TERMINAL_RETRIES + 2 - attempt
    case Telling(_) => 1
    case Finished(_) => 0
  }

  /** What the sender has yet to do with what it has in hand. */
  function SenderLeft(s: Sender): int {
    match s
    case Absent => 1
    case Idle => 1
    case Got(_) => PROGRESS_RETRIES + 2
    case Posting(_, attempt) => PROGRESS_RETRIES + 1 - attempt
    case Ticked => 3
    case Beating => 2
    case Done => 0
  }

  /** What can still happen without a new call or a tick: each buffered update is received, judged and tried;
      each call looks, and may buffer one more. */
  function Left(j: Job): int {
    PhaseLeft(j.phase) + SenderLeft(j.sender) + 5 * |j.queue| + 6 * |j.inCalls| + |Unseeing(j.inCalls)|
  }

  lemma CallsOneLess(calls: map<nat, Call>, h: nat)
    requires h in calls
    ensures |calls - {h}| == |calls| - 1
    ensures |Unseeing(calls - {h})| == |Unseeing(calls)| - if calls[h].cleared then 0 else 1
  {
    assert (calls - {h}).Keys == calls.Keys - {h} && |calls| == |calls.Keys| && |calls - {h}| == |(calls - {h}).Keys|;
    assert Unseeing(calls - {h}) == Unseeing(calls) - {h};
  }

  lemma CallsOneSees(calls: map<nat, Call>, h: nat, call: Call)
    requires h in calls && !calls[h].cleared && call.cleared
    ensures |calls[h := call]| == |calls| && |Unseeing(calls[h := call])| == |Unseeing(calls)| - 1
  {
    var more := calls[h := call];
    assert more.Keys == calls.Keys && |calls| == |calls.Keys| && |more| == |more.Keys|;
    assert Unseeing(more) == Unseeing(calls) - {h};
  }

  lemma CallsOneMore(calls: map<nat, Call>, h: nat, call: Call)
    requires h !in calls && !call.cleared
    ensures |calls[h := call]| == |calls| + 1 && |Unseeing(calls[h := call])| == |Unseeing(calls)| + 1
  {
    var more := calls[h := call];
    assert more.Keys == calls.Keys + {h} && |calls| == |calls.Keys| && |more| == |more.Keys|;
    assert Unseeing(more) == Unseeing(calls) + {h};
  }

  lemma CallComesNearer(j: Job, m: Move)
    requires Enabled(j, m, true) && (m.Look? || m.Send?)
    ensures Left(Called(j, m)) < Left(j)
  {
    var h := m.h;
    CallsOneLess(j.inCalls, h);
    if m.Look? { CallsOneSees(j.inCalls, h, Call(j.inCalls[h].update, true)); }
  }

  lemma SenderComesNearer(j: Job, m: Move)
    requires Posted(j) && Enabled(j, m, true) && IsSender(m) && !m.Tick?
    ensures Left(Sent(j, m)) < Left(j)
  {
    if m.Receive? {
      ReceivingComesNearer(j);
    } else {
      SendersBuffer(j, m);
      HandComesNearer(j, m);
    }
  }

  lemma HandComesNearer(j: Job, m: Move)
    requires Posted(j) && Enabled(j, m, true) && IsSender(m) && !m.Tick? && !m.Receive?
    ensures SenderLeft(Sent(j, m).sender) < SenderLeft(j.sender)
  {
    match m
    case Judge =>
    case PostProgress(_) =>
    case CutProgress =>
    case JudgeTick(_) =>
    case Beat(_) =>
  }

  lemma ReceivingComesNearer(j: Job)
    requires Enabled(j, Receive, true)
    ensures Left(Sent(j, Receive)) < Left(j)
  {
  }

  lemma RunnerComesNearer(j: Job, m: Move)
    requires Stream(j) && Logged(j) && (j.phase.Starting? ==> j.phase.attempt < PROGRESS_RETRIES)
    requires Enabled(j, m, true) && !IsCall(m) && !IsSender(m)
    ensures Left(Driven(j, m)) < Left(j)
  {
    PhaseComesNearer(j, m, Driven(j, m));
  }

  lemma PhaseComesNearer(j: Job, m: Move, k: Job)
    requires Stream(j) && Logged(j) && (j.phase.Starting? ==> j.phase.attempt < PROGRESS_RETRIES)
    requires Enabled(j, m, true) && !IsCall(m) && !IsSender(m) && k == Driven(j, m)
    ensures PhaseLeft(k.phase) + SenderLeft(k.sender) < PhaseLeft(j.phase) + SenderLeft(j.sender)
  {
    if !m.PostStarted? && !m.CutStarted? { assert k.sender == j.sender; }
  }

  /** How much more a new call or a tick can bring. */
  function Brings(m: Move): nat { if m.Enter? then 7 else if m.Tick? then 2 else 0 }

  /** Main result: every move a job can make, other than a new progress call and a tick of the clock, brings
      its end nearer, and those two put it off by a fixed amount. */
  lemma {:induction false} EndComesNearer(j: Job, m: Move, cancelled: bool)
    requires Inv(j) && Enabled(j, m, cancelled)
    ensures 0 <= Left(Stepped(j, m))
    ensures m.Enter? || m.Tick? ==> Left(Stepped(j, m)) == Left(j) + Brings(m)
    ensures !m.Enter? && !m.Tick? ==> Left(Stepped(j, m)) < Left(j)
  {
    StepKeepsInv(j, m, cancelled);
    if m.Enter? {
      CallsOneMore(j.inCalls, m.h, Call(m.update, false));
    } else if IsCall(m) {
      CallComesNearer(j, m);
    } else if IsSender(m) {
      if !m.Tick? { SenderComesNearer(j, m); }
    } else {
      RunnerComesNearer(j, m);
    }
    LeftIsNatural(Stepped(j, m));
  }

  lemma LeftIsNatural(j: Job)
    requires Inv(j)
    ensures 0 <= Left(j)
  {
  }

  /** Of some moves, those taken that were neither, and what those that were can bring. */
  function Efforts(notifies: bool, moves: seq<Choice>): nat {
    if moves == [] then 0 else
      var front, last := moves[..|moves| - 1], moves[|moves| - 1];
      var taken := Enabled(After(notifies, front), last.move, last.cancelled) && Brings(last.move) == 0;
      Efforts(notifies, front) + if taken then 1 else 0
  }

  function Brought(moves: seq<Choice>): nat {
    if moves == [] then 0 else Brought(moves[..|moves| - 1]) + Brings(moves[|moves| - 1].move)
  }

  /** Main result: so in every run a job makes a bounded number of moves, by how often progress was reported
      and the clock ticked. */
  lemma {:induction false} RunsAreBounded(notifies: bool, moves: seq<Choice>)
    ensures Efforts(notifies, moves) + Left(After(notifies, moves)) <= TERMINAL_RETRIES + PROGRESS_RETRIES + 9 + Brought(moves)
    ensures 0 <= Left(After(notifies, moves))
  {
    RunsKeepInv(notifies, moves);
    LeftIsNatural(After(notifies, moves));
    if moves != [] {
      var front, last := moves[..|moves| - 1], moves[|moves| - 1];
      RunsAreBounded(notifies, front);
      RunsKeepInv(notifies, front);
      if Enabled(After(notifies, front), last.move, last.cancelled) {
        EndComesNearer(After(notifies, front), last.move, last.cancelled);
      }
    }
  }
}
