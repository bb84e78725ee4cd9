/** What a job's history says of it: how it ended, what it reported, and how often it was tried. */
module JobOutcome {
  import opened Jobs

  // ----- How it ended -----

  /** Some move was this one, and was taken. */
  predicate Took(notifies: bool, moves: seq<Choice>, m: Move) {
    moves != [] &&
    (var front, last := moves[..|moves| - 1], moves[|moves| - 1];
     Took(notifies, front, m) || (last.move == m && Enabled(After(notifies, front), m, last.cancelled)))
  }

  predicate BeforeReturn(p: Phase) { p.Fetching? || p.Starting? || p.Running? }

  /** What a job's phase has to do with the moves that were taken. */
  ghost predicate EndedAs(j: Job, returned: bool, failed: bool, unread: bool) {
    if BeforeReturn(j.phase) then !returned && !failed && !unread
    else
      && (j.known ==> !unread && (returned <==> !j.phase.failed) && (failed <==> j.phase.failed))
      && (!j.known ==> unread && j.phase.failed && !returned && !failed)
  }

  lemma EndedStep(j: Job, m: Move, cancelled: bool, returned: bool, failed: bool, unread: bool)
    requires Stream(j) && Enabled(j, m, cancelled) && EndedAs(j, returned, failed, unread)
    ensures EndedAs(Stepped(j, m), returned || m == Return(false), failed || m == Return(true), unread || m == Fetch(false))
  {
    if !IsCall(m) && !IsSender(m) { DrivenEnds(j, m, returned, failed, unread); }
  }

  lemma DrivenEnds(j: Job, m: Move, returned: bool, failed: bool, unread: bool)
    requires Stream(j) && Enabled(j, m, true) && !IsCall(m) && !IsSender(m) && EndedAs(j, returned, failed, unread)
    ensures EndedAs(Driven(j, m), returned || m == Return(false), failed || m == Return(true), unread || m == Fetch(false))
  {
  }

  lemma {:induction false} EndedInRuns(notifies: bool, moves: seq<Choice>)
    ensures EndedAs(After(notifies, moves), Took(notifies, moves, Return(false)), Took(notifies, moves, Return(true)),
                    Took(notifies, moves, Fetch(false)))
  {
    if moves != [] {
      var front, last := moves[..|moves| - 1], moves[|moves| - 1];
      EndedInRuns(notifies, front);
      RunsKeepInv(notifies, front);
      if Enabled(After(notifies, front), last.move, last.cancelled) {
        EndedStep(After(notifies, front), last.move, last.cancelled, Took(notifies, front, Return(false)),
                  Took(notifies, front, Return(true)), Took(notifies, front, Fetch(false)));
      }
    }
  }

  lemma {:induction false} SaidAt(log: seq<Event>, failed: bool, i: nat)
    requires AllSay(log, failed) && i < |log|
    ensures log[i].AddStatus? || log[i].failed == failed
  {
    if i < |log| - 1 { SaidAt(log[..|log| - 1], failed, i); }
  }

  /** Main result: in every run, each terminal status tried and each notice says the job failed exactly when its
      work was taken to return an error or its task could not be read, and that it succeeded exactly when its
      work was taken to return without one. */
  lemma {:induction false} HowItEndedIsRecorded(notifies: bool, moves: seq<Choice>, i: nat)
    requires i < |After(notifies, moves).log| && !After(notifies, moves).log[i].AddStatus?
    ensures var said := After(notifies, moves).log[i].failed;
            && (said <==> Took(notifies, moves, Return(true)) || Took(notifies, moves, Fetch(false)))
            && (!said <==> Took(notifies, moves, Return(false)))
  {
    var j := After(notifies, moves);
    RunsKeepInv(notifies, moves);
    EndedInRuns(notifies, moves);
    if EndPhase(j.phase) {
      SaidAt(j.log, j.phase.failed, i);
    } else {
      SaidAt(j.log, true, i);
      SaidAt(j.log, false, i);
    }
  }

  /** Why a job is through with its terminal status. */
  ghost predicate Released(j: Job, deadline: bool) {
    j.phase.Telling? || j.phase.Finished? ==>
      Count(j.log, IsSuccess) == 1 || Count(j.log, IsTerminal) == 100 || deadline
  }

  lemma ReleasedStep(j: Job, m: Move, cancelled: bool, deadline: bool)
    requires Inv(j) && Enabled(j, m, cancelled) && Released(j, deadline)
    ensures Released(Stepped(j, m), deadline || m == TerminalDeadline)
  {
    if IsSender(m) {
      SenderIsOver(j, m);
    } else if !IsCall(m) {
      match m
      case PostTerminal(ok) => Appended(j.log, AddCompletedStatus(j.phase.failed, ok));
      case Notify => Appended(j.log, Notified(j.phase.failed));
      case Fetch(_) =>
      case PostStarted(_) =>
      case CutStarted =>
      case Return(_) =>
      case CloseStream =>
      case Flushed =>
      case FlushTimeout =>
      case TerminalDeadline =>
    }
  }

  /** Once a job has come to its terminal status its sender, if it had one, does nothing more. */
  lemma SenderIsOver(j: Job, m: Move)
    requires Stream(j) && Enabled(j, m, true) && IsSender(m)
    ensures !j.phase.Telling? && !j.phase.Finished?
  {
  }

  lemma {:induction false} ReleasedInRuns(notifies: bool, moves: seq<Choice>)
    ensures Released(After(notifies, moves), Took(notifies, moves, TerminalDeadline))
  {
    if moves != [] {
      var front, last := moves[..|moves| - 1], moves[|moves| - 1];
      ReleasedInRuns(notifies, front);
      RunsKeepInv(notifies, front);
      if Enabled(After(notifies, front), last.move, last.cancelled) {
        ReleasedStep(After(notifies, front), last.move, last.cancelled, Took(notifies, front, TerminalDeadline));
      }
    }
  }

  /** Main result: in every run a job gives up on its terminal status only after a hundred tries or at the
      deadline. */
  lemma {:induction false} GivesUpLate(notifies: bool, moves: seq<Choice>)
    requires After(notifies, moves).phase.Finished?
    ensures var log := After(notifies, moves).log;
            Count(log, IsSuccess) == 1 || Count(log, IsTerminal) == 100 || Took(notifies, moves, TerminalDeadline)
  {
    ReleasedInRuns(notifies, moves);
  }

  // ----- What is kept of what was reported -----

  /** While the stream is open nothing is dropped before there have been more reports than it can hold. */
  ghost predicate KeepsEarly(j: Job) { !j.closed && |j.calls| <= 64 ==> j.accepted == j.calls }

  lemma CallKeepsEarly(j: Job, m: Move)
    requires Stream(j) && Buffered(j) && KeepsEarly(j) && Enabled(j, m, true) && IsCall(m)
    ensures KeepsEarly(Called(j, m))
  {
    if m.Send? && |j.calls| < 64 {
      assert |j.queue| <= |j.accepted|;
    }
  }

  lemma OtherKeepsEarly(j: Job, m: Move)
    requires KeepsEarly(j) && Enabled(j, m, true) && !IsCall(m)
    ensures KeepsEarly(Stepped(j, m))
  {
  }

  /** Main result: in every run, while the job is at work, its first sixty-four reports are all buffered to be
      posted. */
  lemma {:induction false} EarlyReportsAreKept(notifies: bool, moves: seq<Choice>)
    ensures var j := After(notifies, moves); !j.closed && |j.calls| <= 64 ==> j.accepted == j.calls
  {
    if moves != [] {
      var front, last := moves[..|moves| - 1], moves[|moves| - 1];
      var j := After(notifies, front);
      EarlyReportsAreKept(notifies, front);
      RunsKeepInv(notifies, front);
      if Enabled(j, last.move, last.cancelled) {
        if IsCall(last.move) { CallKeepsEarly(j, last.move); } else { OtherKeepsEarly(j, last.move); }
      }
    }
  }

  // ----- How often one is tried -----

  predicate IsTry(e: Event, ok: bool) { e.AddStatus? && e.note.Progress? && e.ok == ok }

  /** How many tries at posting progress have gone one way. */
  function Tries(log: seq<Event>, ok: bool): nat {
    if log == [] then 0 else Tries(log[..|log| - 1], ok) + if IsTry(log[|log| - 1], ok) then 1 else 0
  }

  lemma TriesOneMore(log: seq<Event>, e: Event, ok: bool)
    ensures Tries(log + [e], ok) == Tries(log, ok) + if IsTry(e, ok) then 1 else 0
  {
    assert (log + [e])[..|log|] == log;
  }

  function TriedInHand(s: Sender): nat { if s.Posting? then s.attempt else 0 }

  /** An update is given up on after three tries, or fewer if it was `cut` short. */
  ghost predicate TriesAddUp(j: Job, cut: nat) {
    && Tries(j.log, true) == |j.landed|
    && cut <= j.lost
    && 3 * (j.lost - cut) + TriedInHand(j.sender) <= Tries(j.log, false)
    && Tries(j.log, false) <= 3 * j.lost + 2 * |j.landed| + TriedInHand(j.sender)
  }

  lemma PostAddsUp(j: Job, ok: bool, cut: nat)
    requires Posted(j) && j.sender.Posting? && TriesAddUp(j, cut)
    ensures TriesAddUp(Sent(j, PostProgress(ok)), cut)
  {
    var e, k := AddStatus(Progress(j.sender.update), ok), Sent(j, PostProgress(ok));
    TriesOneMore(j.log, e, true);
    TriesOneMore(j.log, e, false);
    PostCounts(j, ok, k);
  }

  /** What a try changes of what is counted. */
  lemma PostCounts(j: Job, ok: bool, k: Job)
    requires Posted(j) && j.sender.Posting? && k == Sent(j, PostProgress(ok))
    ensures k.log == j.log + [AddStatus(Progress(j.sender.update), ok)]
    ensures ok ==> |k.landed| == |j.landed| + 1 && k.lost == j.lost && TriedInHand(k.sender) == 0
    ensures !ok ==> k.landed == j.landed
    ensures !ok && j.sender.attempt < 2 ==> k.lost == j.lost && TriedInHand(k.sender) == j.sender.attempt + 1
    ensures !ok && j.sender.attempt == 2 ==> k.lost == j.lost + 1 && TriedInHand(k.sender) == 0
    ensures j.sender.attempt <= 2
  {
  }

  /** Every other step of the sender, but for a retry cut short, changes nothing that is counted. */
  lemma QuietSender(j: Job, m: Move)
    requires Enabled(j, m, true) && IsSender(m) && !m.PostProgress?
    ensures var k := Sent(j, m);
            && Tries(k.log, true) == Tries(j.log, true) && Tries(k.log, false) == Tries(j.log, false)
            && k.landed == j.landed && k.lost == j.lost + (if m.CutProgress? then 1 else 0)
            && TriedInHand(k.sender) == if m.CutProgress? then 0 else TriedInHand(j.sender)
  {
    if m.Beat? {
      OtherEvent(j.log, AddStatus(Heartbeat, m.ok));
    } else {
      assert Sent(j, m).log == j.log;
    }
  }

  lemma SenderAddsUp(j: Job, m: Move, cut: nat)
    requires Posted(j) && Enabled(j, m, true) && IsSender(m) && TriesAddUp(j, cut)
    ensures TriesAddUp(Sent(j, m), cut + if m.CutProgress? then 1 else 0)
  {
    if m.PostProgress? {
      PostAddsUp(j, m.ok, cut);
    } else {
      QuietSender(j, m);
      assert j.sender.Posting? ==> j.sender.attempt <= 2;
    }
  }

  lemma RunnerAddsUp(j: Job, m: Move, cut: nat)
    requires Stream(j) && Enabled(j, m, true) && !IsCall(m) && !IsSender(m) && TriesAddUp(j, cut)
    ensures TriesAddUp(Driven(j, m), cut)
  {
    var k := Driven(j, m);
    assert TriedInHand(k.sender) == TriedInHand(j.sender) && SamePosts(j, k);
    if k.log != j.log { OtherEvent(j.log, k.log[|j.log|]); }
  }

  /** Anything else in the history is no try at progress. */
  lemma OtherEvent(log: seq<Event>, e: Event)
    requires !e.AddStatus? || !e.note.Progress?
    ensures Tries(log + [e], true) == Tries(log, true) && Tries(log + [e], false) == Tries(log, false)
  {
    TriesOneMore(log, e, true);
    TriesOneMore(log, e, false);
  }

  /** How many of the moves taken cut a retry short. */
  function Cuts(notifies: bool, moves: seq<Choice>): nat {
    if moves == [] then 0 else
      var front, last := moves[..|moves| - 1], moves[|moves| - 1];
      Cuts(notifies, front)
      + if last.move.CutProgress? && Enabled(After(notifies, front), last.move, last.cancelled) then 1 else 0
  }

  /** Main result: in every run each update posted took one successful try and at most two failed ones, and each
      given up on had failed three times, unless a shutdown cut it short. */
  lemma {:induction false} TriedThreeTimes(notifies: bool, moves: seq<Choice>)
    ensures var j, cut := After(notifies, moves), Cuts(notifies, moves);
            && Tries(j.log, true) == |j.landed| && cut <= j.lost
            && 3 * (j.lost - cut) <= Tries(j.log, false)
            && (j.sender.Done? ==> Tries(j.log, false) <= 3 * j.lost + 2 * |j.landed|)
  {
    AddsUpInRuns(notifies, moves);
  }

  lemma AddsUpOnce(j: Job, m: Move, cancelled: bool, cut: nat)
    requires Inv(j) && Enabled(j, m, cancelled) && TriesAddUp(j, cut)
    ensures TriesAddUp(Stepped(j, m), cut + if m.CutProgress? then 1 else 0)
  {
    if IsCall(m) {
      assert SamePosts(j, Called(j, m)) && Called(j, m).log == j.log && Called(j, m).sender == j.sender;
    } else if IsSender(m) {
      SenderAddsUp(j, m, cut);
    } else {
      RunnerAddsUp(j, m, cut);
    }
  }

  lemma {:induction false} AddsUpInRuns(notifies: bool, moves: seq<Choice>)
    ensures TriesAddUp(After(notifies, moves), Cuts(notifies, moves))
  {
    if moves != [] {
      var front, last := moves[..|moves| - 1], moves[|moves| - 1];
      var j := After(notifies, front);
      AddsUpInRuns(notifies, front);
      RunsKeepInv(notifies, front);
      if Enabled(j, last.move, last.cancelled) {
        AddsUpOnce(j, last.move, last.cancelled, Cuts(notifies, front));
      }
    }
  }

  // ----- Starting and heartbeats -----

  /** How many of the other statuses have been tried. */
  function Others(log: seq<Event>, note: Note): nat {
    if log == [] then 0
    else Others(log[..|log| - 1], note) + if log[|log| - 1].AddStatus? && log[|log| - 1].note == note then 1 else 0
  }

  lemma OthersOneMore(log: seq<Event>, e: Event, note: Note)
    ensures Others(log + [e], note) == Others(log, note) + if e.AddStatus? && e.note == note then 1 else 0
  {
    assert (log + [e])[..|log|] == log;
  }

  /** The moves taken that let a heartbeat through: the stream was open, and the job not silent for too long. */
  function Beats(notifies: bool, moves: seq<Choice>): nat {
    if moves == [] then 0 else
      var front, last := moves[..|moves| - 1], moves[|moves| - 1];
      var j := After(notifies, front);
      Beats(notifies, front)
      + if last.move == JudgeTick(false) && Enabled(j, last.move, last.cancelled) && !j.closed then 1 else 0
  }

  ghost predicate BeatsAddUp(j: Job, beats: nat) {
    && Others(j.log, Heartbeat) + (if j.sender.Beating? then 1 else 0) == beats
    && Others(j.log, Began) <= 3
    && (j.phase.Fetching? ==> Others(j.log, Began) == 0)
    && (j.phase.Starting? ==> Others(j.log, Began) == j.phase.attempt < 3)
    && (j.known && !j.phase.Starting? ==> 1 <= Others(j.log, Began))
  }

  /** How often the start was recorded. */
  function Startings(log: seq<Event>): nat {
    if log == [] then 0 else Startings(log[..|log| - 1]) + if log[|log| - 1] == AddStatus(Began, true) then 1 else 0
  }

  lemma StartingsOneMore(log: seq<Event>, e: Event)
    ensures Startings(log + [e]) == Startings(log) + if e == AddStatus(Began, true) then 1 else 0
  {
    assert (log + [e])[..|log|] == log;
  }

  /** What the sender adds to the history: nothing about starting, and a heartbeat only where it beats. */
  lemma SenderLog(j: Job, m: Move)
    requires Enabled(j, m, true) && IsSender(m)
    ensures var log := Sent(j, m).log;
            && Others(log, Began) == Others(j.log, Began) && Startings(log) == Startings(j.log)
            && Others(log, Heartbeat) == Others(j.log, Heartbeat) + if m.Beat? then 1 else 0
  {
    if m.PostProgress? {
      OneMore(j.log, AddStatus(Progress(j.sender.update), m.ok));
    } else if m.Beat? {
      OneMore(j.log, AddStatus(Heartbeat, m.ok));
    } else {
      assert Sent(j, m).log == j.log;
    }
  }

  lemma OneMore(log: seq<Event>, e: Event)
    ensures Others(log + [e], Began) == Others(log, Began) + if e.AddStatus? && e.note.Began? then 1 else 0
    ensures Others(log + [e], Heartbeat) == Others(log, Heartbeat) + if e.AddStatus? && e.note.Heartbeat? then 1 else 0
    ensures Startings(log + [e]) == Startings(log) + if e == AddStatus(Began, true) then 1 else 0
  {
    OthersOneMore(log, e, Began);
    OthersOneMore(log, e, Heartbeat);
    StartingsOneMore(log, e);
  }

  lemma SenderBeats(j: Job, m: Move, beats: nat)
    requires Stream(j) && Enabled(j, m, true) && IsSender(m) && BeatsAddUp(j, beats)
    ensures BeatsAddUp(Sent(j, m), beats + if m == JudgeTick(false) && !j.closed then 1 else 0)
  {
    SenderLog(j, m);
    BeatingNow(j, m);
  }

  lemma BeatingNow(j: Job, m: Move)
    requires Enabled(j, m, true) && IsSender(m)
    ensures Sent(j, m).sender.Beating? <==> m == JudgeTick(false) && !j.closed
    ensures j.sender.Beating? <==> m.Beat?
  {
  }

  /** What the goroutine that runs the job adds once it has gone on from recording the start. */
  lemma RunnerLog(j: Job, m: Move)
    requires Enabled(j, m, true) && !IsCall(m) && !IsSender(m) && !m.PostStarted?
    ensures var log := Driven(j, m).log;
            && Others(log, Began) == Others(j.log, Began) && Startings(log) == Startings(j.log)
            && Others(log, Heartbeat) == Others(j.log, Heartbeat)
  {
    if m.PostTerminal? {
      OneMore(j.log, AddCompletedStatus(j.phase.failed, m.ok));
    } else if m.Notify? {
      OneMore(j.log, Notified(j.phase.failed));
    } else {
      assert Driven(j, m).log == j.log;
    }
  }

  /** Where it goes from where it is. */
  lemma RunnerGoes(j: Job, m: Move)
    requires Enabled(j, m, true) && !IsCall(m) && !IsSender(m) && !m.PostStarted? && !m.CutStarted? && !m.Fetch?
    ensures var k := Driven(j, m);
            && k.known == j.known && k.sender == j.sender && !k.phase.Fetching? && !k.phase.Starting?
            && !j.phase.Fetching? && !j.phase.Starting?
  {
  }

  lemma RunnerBeats(j: Job, m: Move, beats: nat)
    requires Stream(j) && Enabled(j, m, true) && !IsCall(m) && !IsSender(m) && BeatsAddUp(j, beats)
    ensures BeatsAddUp(Driven(j, m), beats)
  {
    if m.PostStarted? {
      OneMore(j.log, AddStatus(Began, m.ok));
    } else {
      RunnerLog(j, m);
      if !m.CutStarted? && !m.Fetch? { RunnerGoes(j, m); }
    }
  }

  lemma BeatsOnce(j: Job, m: Move, cancelled: bool, beats: nat)
    requires Inv(j) && Enabled(j, m, cancelled) && BeatsAddUp(j, beats)
    ensures BeatsAddUp(Stepped(j, m), beats + if m == JudgeTick(false) && !j.closed then 1 else 0)
  {
    if IsSender(m) {
      SenderBeats(j, m, beats);
    } else if !IsCall(m) {
      RunnerBeats(j, m, beats);
    } else {
      assert Called(j, m).log == j.log && Called(j, m).sender == j.sender && Called(j, m).phase == j.phase;
    }
  }

  /** Main result: in every run a job whose task could be read was first tried to be recorded as started, one to
      three times; and there are as many heartbeats, but for one on its way, as ticks that found the stream open
      and the job not silent for too long. */
  lemma {:induction false} StartedAndAlive(notifies: bool, moves: seq<Choice>)
    ensures var j := After(notifies, moves);
            && (j.known && !j.phase.Starting? ==> 1 <= Others(j.log, Began)) && Others(j.log, Began) <= 3
            && Others(j.log, Heartbeat) <= Beats(notifies, moves) <= Others(j.log, Heartbeat) + 1
  {
    BeatsInRuns(notifies, moves);
  }

  lemma {:induction false} BeatsInRuns(notifies: bool, moves: seq<Choice>)
    ensures BeatsAddUp(After(notifies, moves), Beats(notifies, moves))
  {
    if moves != [] {
      var front, last := moves[..|moves| - 1], moves[|moves| - 1];
      var j := After(notifies, front);
      BeatsInRuns(notifies, front);
      RunsKeepInv(notifies, front);
      if Enabled(j, last.move, last.cancelled) {
        BeatsOnce(j, last.move, last.cancelled, Beats(notifies, front));
      }
    }
  }

  /** Why a job has gone on from recording that it started. */
  ghost predicate Launched(j: Job, cut: bool) {
    && (j.phase.Fetching? || j.phase.Starting? ==> Startings(j.log) == 0)
    && (j.phase.Starting? ==> Others(j.log, Began) == j.phase.attempt < 3)
    && (j.known && !j.phase.Starting? ==> Startings(j.log) == 1 || (Startings(j.log) == 0 && (Others(j.log, Began) == 3 || cut)))
  }

  lemma SenderLaunched(j: Job, m: Move, cut: bool)
    requires Stream(j) && Enabled(j, m, true) && IsSender(m) && Launched(j, cut)
    ensures Launched(Sent(j, m), cut)
  {
    SenderLog(j, m);
  }

  lemma RunnerLaunched(j: Job, m: Move, cut: bool)
    requires Stream(j) && Enabled(j, m, true) && !IsCall(m) && !IsSender(m) && Launched(j, cut)
    requires j.phase.Fetching? ==> Others(j.log, Began) == 0
    ensures Launched(Driven(j, m), cut || m == CutStarted)
  {
    if m.PostStarted? {
      OneMore(j.log, AddStatus(Began, m.ok));
    } else {
      RunnerLog(j, m);
      if !m.CutStarted? && !m.Fetch? { RunnerGoes(j, m); }
    }
  }

  /** Main result: in every run a job goes on once it is recorded as started, and without that only after three
      tries, unless a shutdown cut them short. */
  lemma {:induction false} StartsLate(notifies: bool, moves: seq<Choice>)
    ensures Launched(After(notifies, moves), Took(notifies, moves, CutStarted))
  {
    if moves != [] {
      var front, last := moves[..|moves| - 1], moves[|moves| - 1];
      var j := After(notifies, front);
      StartsLate(notifies, front);
      BeatsInRuns(notifies, front);
      RunsKeepInv(notifies, front);
      if Enabled(j, last.move, last.cancelled) {
        LaunchedOnce(j, last.move, last.cancelled, Took(notifies, front, CutStarted));
      }
    }
  }

  lemma LaunchedOnce(j: Job, m: Move, cancelled: bool, cut: bool)
    requires Inv(j) && Enabled(j, m, cancelled) && Launched(j, cut) && (j.phase.Fetching? ==> Others(j.log, Began) == 0)
    ensures Launched(Stepped(j, m), cut || m == CutStarted)
  {
    if IsSender(m) {
      SenderLaunched(j, m, cut);
    } else if !IsCall(m) {
      RunnerLaunched(j, m, cut);
    } else {
      assert Called(j, m).log == j.log && Called(j, m).known == j.known && Called(j, m).phase == j.phase;
    }
  }
}
