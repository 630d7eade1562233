/** One half-stream worker on demand, shared by the thread that asks and the worker
    itself (spikes/switch-room/capture_demand.py). Every interleaving is a sequence
    of steps. */
module CaptureDemand {
  import opened Common

  /** How a worker ended: its work came back after it was told to stop, it recorded a
      failure, or it was taken by an exception that is not an `Exception`. */
  datatype End = Finished | Failed | Died

  /** A worker thread: created but refused by the system, at work, back from its work,
      with an error in hand, about to end, ended. */
  datatype Life = Unstarted | Working | Back | Failing(error: string) | Leaving(how: End) | Gone(how: End)

  predicate Alive(life: Life) {
    !life.Unstarted? && !life.Gone?
  }

  /** Where the asking thread is; `since` is where the log was when its call began. */
  datatype Place =
    | Outside
    | Entered(wanted: bool, since: nat)   // update, before its look at the failure
    | Looked(wanted: bool, since: nat)    // update, after it
    | Closing(since: nat)                 // close, before anything
    | Joining(since: nat)                 // the worker was told to stop
    | Joined(since: nat)                  // join came back, whether it ended or not
    | Ending(since: nat)                  // before the last look at the failure

  /** What a run leaves behind: a worker starts, is refused its start, is told to stop; its
      work comes back and it looks whether it was told, raises, or falls to what is not an
      `Exception`; it records a failure; it is seen to have ended, or its join runs out; a
      call returns, with what it wanted, or raises. */
  datatype Event =
    | Started(worker: nat) | Refused(worker: nat) | Told(worker: nat)
    | Over(worker: nat) | Broke(worker: nat, error: string) | Fell(worker: nat)
    | Recorded(worker: nat, error: string) | Ended(worker: nat) | TimedOut(worker: nat)
    | Returned(since: nat, wanted: bool) | Raised(since: nat)

  datatype State = State(workers: seq<Life>, thread: Option<nat>, stop: bool, failure: Option<string>,
                         at: Place, log: seq<Event>)

  const FRESH := State([], None, false, None, Outside, [])

  const ENDED := "half capture ended while still requested"

  datatype Step =
    | CallUpdate(wanted: bool) | CallClose
    | Advance         // the asking thread's next line, when only one outcome is possible
    | StartRefused    // the system has no thread for it
    | JoinElapsed     // eight seconds passed
    | WorkReturns(worker: nat) | WorkRaises(worker: nat, error: string)
    | WorkDies(worker: nat)     // by an exception that is not an Exception
    | WorkerOn(worker: nat)

  predicate Enabled(s: State, step: Step) {
    match step
    case CallUpdate(_) => s.at == Outside
    case CallClose => s.at == Outside
    case Advance =>
      s.at != Outside
      && (s.at.Joining? && s.thread.Some? && s.thread.value < |s.workers| ==> !Alive(s.workers[s.thread.value]))
    case StartRefused => s.at.Looked? && s.at.wanted && s.thread == None
    case JoinElapsed => s.at.Joining?
    case WorkReturns(k) => k < |s.workers| && s.workers[k] == Working
    case WorkRaises(k, _) => k < |s.workers| && s.workers[k] == Working
    case WorkDies(k) => k < |s.workers| && s.workers[k] == Working
    case WorkerOn(k) => k < |s.workers| && Alive(s.workers[k]) && s.workers[k] != Working
  }

  function Raise(s: State): State
    requires s.at != Outside
  {
    s.(at := Outside, log := s.log + [Raised(s.at.since)])
  }

  function Return(s: State, wanted: bool): State
    requires s.at != Outside
  {
    s.(at := Outside, log := s.log + [Returned(s.at.since, wanted)])
  }

  /** The asking thread's next line. */
  function Line(s: State): State
    requires s.at != Outside
  {
    match s.at
    case Entered(wanted, since) =>
      if s.failure.Some? then Raise(s) else s.(at := Looked(wanted, since))
    case Looked(wanted, since) =>
      if wanted && s.thread == None then
        Return(s.(workers := s.workers + [Working], thread := Some(|s.workers|), stop := false,
                  log := s.log + [Started(|s.workers|)]), true)
      else if !wanted then s.(at := Closing(since))
      else Return(s, true)
    case Closing(since) =>
      if s.thread.Some? then s.(stop := true, at := Joining(since), log := s.log + [Told(s.thread.value)])
      else s.(at := Ending(since))
    case Joining(since) =>
      // joining a thread the system refused to start is an error
      if s.thread.Some? && s.thread.value < |s.workers| && s.workers[s.thread.value] == Unstarted then Raise(s)
      else s.(at := Joined(since))
    case Joined(since) =>
      if s.thread.Some? && s.thread.value < |s.workers| && Alive(s.workers[s.thread.value]) then
        Raise(s.(log := s.log + [TimedOut(s.thread.value)]))
      else if s.thread.Some? then s.(thread := None, at := Ending(since), log := s.log + [Ended(s.thread.value)])
      else s.(at := Ending(since))
    case Ending(since) =>
      if s.failure.Some? then Raise(s) else Return(s, false)
  }

  /** A worker's next step once its work is over. */
  function Worker(s: State, k: nat): State
    requires k < |s.workers| && Alive(s.workers[k]) && s.workers[k] != Working
  {
    match s.workers[k]
    case Back =>
      s.(workers := s.workers[k := if s.stop then Leaving(Finished) else Failing(ENDED)], log := s.log + [Over(k)])
    case Failing(error) =>
      s.(workers := s.workers[k := Leaving(Failed)], failure := Some(error), log := s.log + [Recorded(k, error)])
    case Leaving(how) => s.(workers := s.workers[k := Gone(how)])
  }

  function Next(s: State, step: Step): State
    requires Enabled(s, step)
  {
    match step
    case CallUpdate(wanted) => s.(at := Entered(wanted, |s.log|))
    case CallClose => s.(at := Closing(|s.log|))
    case Advance => Line(s)
    case StartRefused =>
      Raise(s.(workers := s.workers + [Unstarted], thread := Some(|s.workers|), stop := false,
               log := s.log + [Refused(|s.workers|)]))
    case JoinElapsed =>
      if s.thread.Some? && s.thread.value < |s.workers| && s.workers[s.thread.value] == Unstarted then Raise(s)
      else s.(at := Joined(s.at.since))
    case WorkReturns(k) => s.(workers := s.workers[k := Back])
    case WorkRaises(k, error) => s.(workers := s.workers[k := Failing(error)], log := s.log + [Broke(k, error)])
    case WorkDies(k) => s.(workers := s.workers[k := Leaving(Died)], log := s.log + [Fell(k)])
    case WorkerOn(k) => Worker(s, k)
  }

  /** The state after a run, if each step of it could be taken. */
  function After(steps: seq<Step>): Option<State> {
    if steps == [] then Some(FRESH)
    else
      var before := After(steps[..|steps| - 1]);
      if before.Some? && Enabled(before.value, steps[|steps| - 1])
      then Some(Next(before.value, steps[|steps| - 1])) else None
  }

  // ---- what every run keeps --------------------------------------------------

  ghost predicate NoFailureBefore(log: seq<Event>, n: nat) {
    forall i :: 0 <= i < |log| && i < n ==> !log[i].Recorded?
  }

  /** A worker starts only once the one before it was seen to have ended, and never
      after a failure; a call that began after a failure does not return. */
  ghost predicate LegalAt(log: seq<Event>, i: nat)
    requires i < |log|
  {
    && (log[i].Started? ==> NoFailureBefore(log, i) && (log[i].worker > 0 ==> SeenEnded(log, log[i].worker - 1, i)))
    && (log[i].Returned? ==> log[i].since <= i && NoFailureBefore(log, log[i].since))
  }

  ghost predicate SeenEnded(log: seq<Event>, worker: nat, n: nat) {
    exists j :: 0 <= j < |log| && j < n && log[j] == Ended(worker)
  }

  ghost predicate Legal(log: seq<Event>) {
    forall i :: 0 <= i < |log| ==> LegalAt(log, i)
  }

  /** Only the current worker, the last one, may still be there. */
  ghost predicate OneWorker(s: State) {
    && (s.thread.Some? ==> s.thread.value == |s.workers| - 1)
    && (forall k :: 0 <= k < |s.workers| && s.thread != Some(k) ==> s.workers[k].Gone?)
    && (s.thread == None && s.workers != [] ==> SeenEnded(s.log, |s.workers| - 1, |s.log|))
  }

  predicate EndedIn(life: Life, how: End) {
    life == Leaving(how) || life == Gone(how)
  }

  ghost predicate FailureIsRecorded(s: State) {
    && (s.failure == None <==> NoFailureBefore(s.log, |s.log|))
    && (forall k :: 0 <= k < |s.workers| && EndedIn(s.workers[k], Failed) ==> s.failure.Some?)
  }

  /** A call that has passed its look at the failure began before any; and while no
      worker is there, none can appear. */
  ghost predicate CallIsLegal(s: State) {
    && (s.at != Outside ==> s.at.since <= |s.log|)
    && (s.at.Looked? ==> NoFailureBefore(s.log, s.at.since))
    && (s.at.Looked? && s.failure.Some? ==>
          s.thread.Some? && s.thread.value < |s.workers| && EndedIn(s.workers[s.thread.value], Failed))
    && (s.at.Joining? || s.at.Joined? ==> s.thread.Some?)
    && (s.at.Ending? ==> s.thread == None)
    && (s.at.Joined? && s.thread.value < |s.workers| ==> s.workers[s.thread.value] != Unstarted)
  }

  ghost predicate Kept(s: State) {
    OneWorker(s) && FailureIsRecorded(s) && CallIsLegal(s) && Legal(s.log)
  }

  lemma NoFailureMore(log: seq<Event>, e: Event, n: nat)
    requires n <= |log|
    ensures NoFailureBefore(log + [e], n) <==> NoFailureBefore(log, n)
    ensures NoFailureBefore(log + [e], |log| + 1) <==> NoFailureBefore(log, |log|) && !e.Recorded?
  {
    var more := log + [e];
    assert more[|log|] == e;
    assert forall i :: 0 <= i < |log| ==> more[i] == log[i];
  }

  lemma SeenMore(log: seq<Event>, e: Event, worker: nat, n: nat)
    requires n <= |log|
    ensures SeenEnded(log + [e], worker, n) <==> SeenEnded(log, worker, n)
    ensures SeenEnded(log, worker, n) || e == Ended(worker) ==> SeenEnded(log + [e], worker, |log| + 1)
  {
    var more := log + [e];
    assert more[|log|] == e;
    if j :| 0 <= j < |log| && j < n && log[j] == Ended(worker) {
      assert more[j] == Ended(worker);
    }
  }

  lemma LegalMore(log: seq<Event>, e: Event)
    requires Legal(log)
    requires e.Started? ==>
               NoFailureBefore(log, |log|) && (e.worker > 0 ==> SeenEnded(log, e.worker - 1, |log|))
    requires e.Returned? ==> e.since <= |log| && NoFailureBefore(log, e.since)
    ensures Legal(log + [e])
  {
    hide NoFailureBefore, SeenEnded;
    var more := log + [e];
    forall i | 0 <= i < |more|
      ensures LegalAt(more, i)
    {
      if i < |log| {
        assert LegalAt(log, i) && more[i] == log[i];
      }
      NoFailureMore(log, e, i);
      if more[i].Started? && more[i].worker > 0 {
        SeenMore(log, e, more[i].worker - 1, i);
      }
      if more[i].Returned? {
        NoFailureMore(log, e, more[i].since);
      }
    }
  }

  /** One more event: what it must satisfy, and what stays known of the log. */
  lemma Logged(s: State, e: Event)
    requires Legal(s.log) && (s.at != Outside ==> s.at.since <= |s.log|)
    requires e.Started? ==>
               NoFailureBefore(s.log, |s.log|) && (e.worker > 0 ==> SeenEnded(s.log, e.worker - 1, |s.log|))
    requires e.Returned? ==> e.since <= |s.log| && NoFailureBefore(s.log, e.since)
    ensures Legal(s.log + [e])
    ensures NoFailureBefore(s.log + [e], |s.log| + 1) <==> NoFailureBefore(s.log, |s.log|) && !e.Recorded?
    ensures s.at != Outside ==> (NoFailureBefore(s.log + [e], s.at.since) <==> NoFailureBefore(s.log, s.at.since))
    ensures |s.workers| > 0 && (SeenEnded(s.log, |s.workers| - 1, |s.log|) || e == Ended(|s.workers| - 1))
            ==> SeenEnded(s.log + [e], |s.workers| - 1, |s.log| + 1)
  {
    hide NoFailureBefore, SeenEnded, Legal;
    LegalMore(s.log, e);
    NoFailureMore(s.log, e, if s.at == Outside then 0 else s.at.since);
    if |s.workers| > 0 {
      SeenMore(s.log, e, |s.workers| - 1, |s.log|);
    }
  }

  lemma Shorter(log: seq<Event>, n: nat)
    requires NoFailureBefore(log, |log|)
    ensures NoFailureBefore(log, n)
  {
  }

  /** A worker's own steps keep it all. */
  lemma WorkerKeeps(s: State, step: Step)
    requires Kept(s) && Enabled(s, step)
    requires step.WorkReturns? || step.WorkRaises? || step.WorkDies? || step.WorkerOn?
    ensures Kept(Next(s, step))
  {
    hide NoFailureBefore, SeenEnded, Legal;
    var k := step.worker;
    assert s.thread == Some(k);
    Logged(s, Over(k));
    Logged(s, Fell(k));
    if step.WorkRaises? {
      Logged(s, Broke(k, step.error));
    }
    if step.WorkerOn? && s.workers[k].Failing? {
      Logged(s, Recorded(k, s.workers[k].error));
    }
  }

  /** So do the lines of the asking thread. */
  lemma AskerKeeps(s: State, step: Step)
    requires Kept(s) && Enabled(s, step)
    requires step.CallUpdate? || step.CallClose? || step.StartRefused? || step.JoinElapsed?
    ensures Kept(Next(s, step))
  {
    hide NoFailureBefore, SeenEnded, Legal;
    if s.at != Outside {
      Logged(s, Raised(s.at.since));
    }
    if step.StartRefused? {
      Logged(s, Refused(|s.workers|));
      var refused := s.(workers := s.workers + [Unstarted], thread := Some(|s.workers|), stop := false,
                        log := s.log + [Refused(|s.workers|)]);
      Logged(refused, Raised(s.at.since));
    }
  }

  lemma LineKeeps(s: State)
    requires Kept(s) && Enabled(s, Advance)
    ensures Kept(Next(s, Advance))
  {
    hide NoFailureBefore, SeenEnded, Legal;
    var since := s.at.since;
    match s.at
    case Entered(wanted, _) =>
      Logged(s, Raised(since));
      if s.failure == None {
        Shorter(s.log, since);
      }
    case Looked(wanted, _) =>
      if wanted && s.thread == None {
        Shorter(s.log, since);
        Logged(s, Started(|s.workers|));
        var begun := s.(workers := s.workers + [Working], thread := Some(|s.workers|), stop := false,
                        log := s.log + [Started(|s.workers|)]);
        Logged(begun, Returned(since, true));
      } else if wanted {
        Logged(s, Returned(since, true));
      }
    case Joining(_) =>
      Logged(s, Raised(since));
    case Joined(_) =>
      Logged(s, Ended(s.thread.value));
      Logged(s, TimedOut(s.thread.value));
      Logged(s.(log := s.log + [TimedOut(s.thread.value)]), Raised(since));
    case Ending(_) =>
      Logged(s, Raised(since));
      if s.failure == None {
        Shorter(s.log, since);
        Logged(s, Returned(since, false));
      }
    case Closing(_) =>
      if s.thread.Some? {
        Logged(s, Told(s.thread.value));
      }
  }

  lemma {:induction false} EveryRunIsKept(steps: seq<Step>)
    requires After(steps).Some?
    ensures Kept(After(steps).value)
  {
    hide Kept, Enabled, Next;
    if steps == [] {
      FreshIsKept();
    } else {
      var before, step := steps[..|steps| - 1], steps[|steps| - 1];
      EveryRunIsKept(before);
      var s := After(before).value;
      if step.Advance? {
        LineKeeps(s);
      } else if step.CallUpdate? || step.CallClose? || step.StartRefused? || step.JoinElapsed? {
        AskerKeeps(s, step);
      } else {
        WorkerKeeps(s, step);
      }
    }
  }

  lemma FreshIsKept()
    ensures Kept(FRESH)
  {
  }

  // ---- what a user of the class can count on ---------------------------------

  /** Whatever the interleaving, no two workers are ever there together. */
  lemma AtMostOneWorker(steps: seq<Step>, i: nat, j: nat)
    requires After(steps).Some?
    requires i < |After(steps).value.workers| && j < |After(steps).value.workers|
    requires Alive(After(steps).value.workers[i]) && Alive(After(steps).value.workers[j])
    ensures i == j
  {
    hide After, Legal;
    EveryRunIsKept(steps);
  }

  /** A worker starts only after the previous one was joined and seen to have ended,
      so a join that timed out never allows a second one; and none starts after a
      failure. */
  lemma StartsAreSafe(steps: seq<Step>, i: nat)
    requires After(steps).Some?
    requires i < |After(steps).value.log| && After(steps).value.log[i].Started?
    ensures var log := After(steps).value.log;
            && (forall r :: 0 <= r < i ==> !log[r].Recorded?)
            && (log[i].worker > 0 ==> exists j :: 0 <= j < i && log[j] == Ended(log[i].worker - 1))
  {
    hide After;
    EveryRunIsKept(steps);
    var log := After(steps).value.log;
    assert LegalAt(log, i);
  }

  /** Every call that begins once a failure is recorded ends by raising it. */
  lemma AFailureIsRaised(steps: seq<Step>, recorded: nat, ended: nat)
    requires After(steps).Some?
    requires recorded < ended < |After(steps).value.log|
    requires After(steps).value.log[recorded].Recorded?
    requires After(steps).value.log[ended].Returned?
    ensures After(steps).value.log[ended].since <= recorded
  {
    hide After;
    EveryRunIsKept(steps);
    var log := After(steps).value.log;
    assert LegalAt(log, ended);
  }

  /** A close that gets as far as its last look, so every close that returns, leaves
      no worker behind, and its next line decides on the failure alone. */
  lemma CloseLeavesNoWorker(steps: seq<Step>)
    requires After(steps).Some? && After(steps).value.at.Ending?
    ensures var s := After(steps).value;
            && (forall k :: 0 <= k < |s.workers| ==> s.workers[k].Gone?)
            && (Line(s) == Return(s, false) <==> forall i :: 0 <= i < |s.log| ==> !s.log[i].Recorded?)
  {
    hide After, Legal;
    EveryRunIsKept(steps);
    var s := After(steps).value;
    assert Raise(s).log[|s.log|].Raised? && Return(s, false).log[|s.log|].Returned?;
  }

  // ---- every call ends, and every worker -------------------------------------

  /** The lines a call has left, at most. */
  function LinesLeft(at: Place): nat {
    match at
    case Entered(_, _) => 6
    case Looked(_, _) => 5
    case Closing(_) => 4
    case Joining(_) => 3
    case Joined(_) => 2
    case Ending(_) => 1
    case Outside => 0
  }

  /** The steps a worker has left, at most. */
  function StepsLeft(life: Life): nat {
    match life
    case Working => 4
    case Back => 3
    case Failing(_) => 2
    case Leaving(_) => 1
    case Gone(_) => 0
    case Unstarted => 0
  }

  function AllLeft(workers: seq<Life>): nat {
    if workers == [] then 0 else AllLeft(workers[..|workers| - 1]) + StepsLeft(workers[|workers| - 1])
  }

  predicate IsCall(step: Step) {
    step.CallUpdate? || step.CallClose?
  }

  predicate IsLine(step: Step) {
    step.Advance? || step.StartRefused? || step.JoinElapsed?
  }

  function HowMany(steps: seq<Step>, which: Step -> bool): nat {
    if steps == [] then 0
    else HowMany(steps[..|steps| - 1], which) + if which(steps[|steps| - 1]) then 1 else 0
  }

  lemma {:induction false} OneWorkerMoves(workers: seq<Life>, k: nat, life: Life)
    requires k < |workers|
    ensures AllLeft(workers[k := life]) == AllLeft(workers) - StepsLeft(workers[k]) + StepsLeft(life)
  {
    var n := |workers| - 1;
    if k < n {
      OneWorkerMoves(workers[..n], k, life);
      assert workers[k := life][..n] == workers[..n][k := life];
    } else {
      assert workers[k := life][..n] == workers[..n];
    }
  }

  lemma OneWorkerMore(workers: seq<Life>, life: Life)
    ensures AllLeft(workers + [life]) == AllLeft(workers) + StepsLeft(life)
  {
    assert (workers + [life])[..|workers|] == workers;
  }

  /** No step that can be taken leaves things as they are: a line brings its call nearer to its
      end, and a step of a worker brings that worker, alone, nearer to its own. */
  lemma EveryStepMoves(s: State, step: Step)
    requires Enabled(s, step)
    ensures var t := Next(s, step);
            && (IsCall(step) ==> s.at == Outside && LinesLeft(t.at) > 0 && t.workers == s.workers)
            && (IsLine(step) ==> LinesLeft(t.at) < LinesLeft(s.at) && s.workers <= t.workers)
            && (!IsCall(step) && !IsLine(step) ==>
                  && t.at == s.at && step.worker < |s.workers|
                  && exists life :: t.workers == s.workers[step.worker := life]
                                    && StepsLeft(life) < StepsLeft(s.workers[step.worker]))
  {
    var t := Next(s, step);
    if !IsCall(step) && !IsLine(step) {
      var life := t.workers[step.worker];
      assert t.workers == s.workers[step.worker := life];
      assert StepsLeft(life) < StepsLeft(s.workers[step.worker]);
    }
  }

  /** Over every run: six lines are enough for each call, and four steps for each worker; and a
      call that has not ended always has a line it can take. */
  lemma {:induction false} EveryCallEnds(steps: seq<Step>)
    requires After(steps).Some?
    ensures var s := After(steps).value;
            && HowMany(steps, IsLine) + LinesLeft(s.at) <= 6 * HowMany(steps, IsCall)
            && HowMany(steps, (a: Step) => !IsCall(a) && !IsLine(a)) + AllLeft(s.workers) <= 4 * |s.workers|
            && (s.at != Outside ==> Enabled(s, Advance) || Enabled(s, JoinElapsed))
  {
    hide Next, Enabled;
    if steps == [] {
      NoSteps();
    } else {
      var early, step := steps[..|steps| - 1], steps[|steps| - 1];
      EveryCallEnds(early);
      var s := After(early).value;
      EveryStepMoves(s, step);
      MovesCount(s, step);
      SomeLine(Next(s, step));
    }
  }

  lemma SomeLine(s: State)
    ensures s.at != Outside ==> Enabled(s, Advance) || Enabled(s, JoinElapsed)
  {
  }

  lemma MovesCount(s: State, step: Step)
    requires Enabled(s, step)
    ensures var t := Next(s, step);
            && LinesLeft(t.at) <= 6 && |s.workers| <= |t.workers|
            && AllLeft(t.workers) - AllLeft(s.workers)
               <= 4 * (|t.workers| - |s.workers|) - (if IsCall(step) || IsLine(step) then 0 else 1)
  {
    hide AllLeft;
    EveryStepMoves(s, step);
    if IsLine(step) {
      var t := Next(s, step);
      OneWorkerMore(s.workers, Working);
      OneWorkerMore(s.workers, Unstarted);
      assert t.workers == s.workers || t.workers == s.workers + [Working] || t.workers == s.workers + [Unstarted];
    } else if !IsCall(step) {
      var life := Next(s, step).workers[step.worker];
      assert Next(s, step).workers == s.workers[step.worker := life];
      OneWorkerMoves(s.workers, step.worker, life);
    }
  }

  /** What the works of the workers came to, in the log and as they came to it. */
  function Mishaps(log: seq<Event>): seq<Event> {
    if log == [] then []
    else
      var last := log[|log| - 1];
      Mishaps(log[..|log| - 1]) + if last.Broke? || last.Fell? then [last] else []
  }

  function MishapsOf(steps: seq<Step>): seq<Event> {
    if steps == [] then []
    else
      MishapsOf(steps[..|steps| - 1])
      + match steps[|steps| - 1]
        case WorkRaises(k, error) => [Broke(k, error)]
        case WorkDies(k) => [Fell(k)]
        case _ => []
  }

  /** Over every run, the log tells each work that raised, with its error, and each that fell,
      in order and nothing else. */
  lemma {:induction false} TheLogTellsTheMishaps(steps: seq<Step>)
    requires After(steps).Some?
    ensures Mishaps(After(steps).value.log) == MishapsOf(steps)
  {
    hide Enabled, Next;
    if steps == [] {
      NoSteps();
    } else {
      TheLogTellsTheMishaps(steps[..|steps| - 1]);
      AMishapMore(After(steps[..|steps| - 1]).value, steps[|steps| - 1]);
    }
  }

  lemma MishapMore(log: seq<Event>, e: Event)
    ensures Mishaps(log + [e]) == Mishaps(log) + if e.Broke? || e.Fell? then [e] else []
  {
    assert (log + [e])[..|log|] == log;
  }

  lemma {:induction false} QuietMore(log: seq<Event>, more: seq<Event>)
    requires forall e :: e in more ==> !e.Broke? && !e.Fell?
    ensures Mishaps(log + more) == Mishaps(log)
  {
    if more == [] {
      assert log + more == log;
    } else {
      var n := |more| - 1;
      QuietMore(log, more[..n]);
      MishapMore(log + more[..n], more[n]);
      assert log + more == log + more[..n] + [more[n]];
    }
  }

  /** What a step adds to the log, when it is none of these. */
  lemma QuietStep(s: State, step: Step) returns (more: seq<Event>)
    requires Enabled(s, step) && !step.WorkRaises? && !step.WorkDies?
    ensures Next(s, step).log == s.log + more && forall e :: e in more ==> !e.Broke? && !e.Fell?
  {
    var log := Next(s, step).log;
    assert |s.log| <= |log| <= |s.log| + 2 && s.log <= log;
    more := log[|s.log|..];
    assert log == s.log + more;
  }

  lemma AMishapMore(s: State, step: Step)
    requires Enabled(s, step)
    ensures Mishaps(Next(s, step).log)
            == Mishaps(s.log) + match step
                                case WorkRaises(k, error) => [Broke(k, error)]
                                case WorkDies(k) => [Fell(k)]
                                case _ => []
  {
    hide Mishaps;
    if step.WorkRaises? || step.WorkDies? {
      MishapMore(s.log, if step.WorkRaises? then Broke(step.worker, step.error) else Fell(step.worker));
    } else {
      var more := QuietStep(s, step);
      QuietMore(s.log, more);
    }
  }

  // ---- how a worker ends -----------------------------------------------------

  /** What became of the work of a worker, as the log tells it: it came back to a worker that
      had been told to stop, or had not; it raised; it fell. */
  datatype Verdict = WasTold | Untold | Broken(error: string) | Fallen

  predicate ToldIn(log: seq<Event>, k: nat) {
    Told(k) in log
  }

  function VerdictOn(log: seq<Event>, k: nat): Option<Verdict> {
    if log == [] then None
    else
      var n := |log| - 1;
      match log[n]
      case Over(w) =>
        if w != k then VerdictOn(log[..n], k) else if ToldIn(log[..n], k) then Some(WasTold) else Some(Untold)
      case Broke(w, error) => if w == k then Some(Broken(error)) else VerdictOn(log[..n], k)
      case Fell(w) => if w == k then Some(Fallen) else VerdictOn(log[..n], k)
      case _ => VerdictOn(log[..n], k)
  }

  /** The error a verdict makes a worker record. */
  predicate Fails(v: Verdict, error: string) {
    v == Broken(error) || (v == Untold && error == ENDED)
  }

  /** The life of a worker is what the log tells of it. */
  ghost predicate Matches(log: seq<Event>, k: nat, life: Life) {
    match life
    case Unstarted => VerdictOn(log, k).None?
    case Working => VerdictOn(log, k).None?
    case Back => VerdictOn(log, k).None?
    case Failing(error) => VerdictOn(log, k).Some? && Fails(VerdictOn(log, k).value, error)
    case Leaving(how) => EndMatches(log, k, how)
    case Gone(how) => EndMatches(log, k, how)
  }

  ghost predicate EndMatches(log: seq<Event>, k: nat, how: End) {
    VerdictOn(log, k).Some? &&
    match how
    case Finished => VerdictOn(log, k).value == WasTold
    case Failed => exists error :: Fails(VerdictOn(log, k).value, error) && Recorded(k, error) in log
    case Died => VerdictOn(log, k).value == Fallen
  }

  ghost predicate Story(s: State) {
    && (forall k: nat :: k < |s.workers| ==> Matches(s.log, k, s.workers[k]))
    && (forall k: nat :: k >= |s.workers| ==> VerdictOn(s.log, k).None? && !ToldIn(s.log, k))
    && (s.thread.Some? && s.thread.value < |s.workers| ==> (s.stop <==> ToldIn(s.log, s.thread.value)))
    && (s.at.Joining? || s.at.Joined? ==> s.thread.Some? && ToldIn(s.log, s.thread.value))
  }

  lemma OneMoreEvent(log: seq<Event>, e: Event, k: nat)
    ensures ToldIn(log + [e], k) <==> ToldIn(log, k) || e == Told(k)
    ensures VerdictOn(log + [e], k)
            == match e
               case Over(w) =>
                 if w != k then VerdictOn(log, k) else if ToldIn(log, k) then Some(WasTold) else Some(Untold)
               case Broke(w, error) => if w == k then Some(Broken(error)) else VerdictOn(log, k)
               case Fell(w) => if w == k then Some(Fallen) else VerdictOn(log, k)
               case _ => VerdictOn(log, k)
  {
    assert (log + [e])[..|log|] == log;
  }

  /** An event that is not about the work of a worker leaves its story. */
  lemma SameStory(log: seq<Event>, e: Event, k: nat, life: Life)
    requires Matches(log, k, life)
    requires !(e.Over? && e.worker == k) && !(e.Broke? && e.worker == k) && !(e.Fell? && e.worker == k)
    ensures Matches(log + [e], k, life)
  {
    hide VerdictOn, ToldIn;
    OneMoreEvent(log, e, k);
    if (life.Leaving? || life.Gone?) && life.how == Failed {
      var error :| Fails(VerdictOn(log, k).value, error) && Recorded(k, error) in log;
      assert Recorded(k, error) in log + [e];
    }
  }

  /** An event of the asking thread, or none. */
  lemma StoryOfAnEvent(s: State, t: State, e: Event)
    requires Story(s) && t.workers == s.workers && t.log == s.log + [e] && t.thread == s.thread && t.stop == s.stop
    requires !e.Over? && !e.Broke? && !e.Fell? && !e.Told?
    requires t.at.Joining? || t.at.Joined? ==> t.thread.Some? && ToldIn(s.log, t.thread.value)
    ensures Story(t)
  {
    hide VerdictOn, ToldIn, Matches;
    forall k: nat
      ensures k < |s.workers| ==> Matches(t.log, k, s.workers[k])
      ensures VerdictOn(t.log, k) == VerdictOn(s.log, k) && ToldIn(t.log, k) == ToldIn(s.log, k)
    {
      OneMoreEvent(s.log, e, k);
      if k < |s.workers| {
        SameStory(s.log, e, k, s.workers[k]);
      }
    }
  }

  /** A new worker, at work or refused. */
  lemma StoryOfAStart(s: State, t: State, life: Life, e: Event)
    requires Story(s) && (s.at.Looked? || t.at == Outside) && (life == Working || life == Unstarted)
    requires e == Started(|s.workers|) || e == Refused(|s.workers|)
    requires t == s.(workers := s.workers + [life], thread := Some(|s.workers|), stop := false, log := s.log + [e])
    ensures Story(t)
  {
    hide VerdictOn, ToldIn;
    forall k: nat
      ensures k < |s.workers| ==> Matches(t.log, k, s.workers[k])
      ensures VerdictOn(t.log, k) == VerdictOn(s.log, k) && ToldIn(t.log, k) == ToldIn(s.log, k)
    {
      OneMoreEvent(s.log, e, k);
      if k < |s.workers| {
        SameStory(s.log, e, k, s.workers[k]);
      }
    }
  }

  lemma AskerTells(s: State, step: Step)
    requires Kept(s) && Story(s) && Enabled(s, step)
    requires step.CallUpdate? || step.CallClose? || step.StartRefused? || step.JoinElapsed?
    ensures Story(Next(s, step))
  {
    hide Matches, VerdictOn, ToldIn, Legal, NoFailureBefore, SeenEnded;
    if step.StartRefused? {
      var refused := s.(workers := s.workers + [Unstarted], thread := Some(|s.workers|), stop := false,
                        log := s.log + [Refused(|s.workers|)]);
      StoryOfAStart(s, refused, Unstarted, Refused(|s.workers|));
      StoryOfAnEvent(refused, Next(s, step), Raised(s.at.since));
    } else if step.JoinElapsed? && Next(s, step) == Raise(s) {
      StoryOfAnEvent(s, Next(s, step), Raised(s.at.since));
    }
  }

  lemma LineTells(s: State)
    requires Kept(s) && Story(s) && Enabled(s, Advance)
    ensures Story(Next(s, Advance))
  {
    hide Matches, VerdictOn, ToldIn, Legal, NoFailureBefore, SeenEnded;
    var since, t := s.at.since, Next(s, Advance);
    match s.at
    case Entered(_, _) =>
      if t == Raise(s) {
        StoryOfAnEvent(s, t, Raised(since));
      }
    case Looked(wanted, _) =>
      if wanted && s.thread == None {
        var begun := s.(workers := s.workers + [Working], thread := Some(|s.workers|), stop := false,
                        log := s.log + [Started(|s.workers|)]);
        StoryOfAStart(s, begun, Working, Started(|s.workers|));
        StoryOfAnEvent(begun, t, Returned(since, true));
      } else if wanted {
        StoryOfAnEvent(s, t, Returned(since, true));
      }
    case Closing(_) =>
      if s.thread.Some? {
        StoryOfTelling(s);
      }
    case Joining(_) =>
      if t == Raise(s) {
        StoryOfAnEvent(s, t, Raised(since));
      }
    case Joined(_) =>
      var k := s.thread.value;
      if Alive(s.workers[k]) {
        StoryOfAnEvent(s, s.(log := s.log + [TimedOut(k)]), TimedOut(k));
        StoryOfAnEvent(s.(log := s.log + [TimedOut(k)]), t, Raised(since));
      } else {
        StoryOfAnEvent(s, s.(log := s.log + [Ended(k)]), Ended(k));
      }
    case Ending(_) =>
      StoryOfAnEvent(s, Raise(s), Raised(since));
      StoryOfAnEvent(s, Return(s, false), Returned(since, false));
  }

  lemma StoryOfTelling(s: State)
    requires Kept(s) && Story(s) && s.at.Closing? && s.thread.Some?
    ensures Story(Line(s))
  {
    hide VerdictOn, ToldIn, Legal, NoFailureBefore, SeenEnded, Matches;
    var e, t := Told(s.thread.value), Line(s);
    forall k: nat
      ensures k < |s.workers| ==> Matches(t.log, k, s.workers[k])
      ensures VerdictOn(t.log, k) == VerdictOn(s.log, k)
      ensures ToldIn(t.log, k) <==> ToldIn(s.log, k) || k == s.thread.value
    {
      OneMoreEvent(s.log, e, k);
      if k < |s.workers| {
        SameStory(s.log, e, k, s.workers[k]);
      }
    }
  }

  lemma WorkerTells(s: State, step: Step)
    requires Kept(s) && Story(s) && Enabled(s, step)
    requires step.WorkReturns? || step.WorkRaises? || step.WorkDies? || step.WorkerOn?
    ensures Story(Next(s, step))
  {
    hide VerdictOn, ToldIn, Legal, NoFailureBefore, SeenEnded;
    var w, t := step.worker, Next(s, step);
    assert s.thread == Some(w);
    if t.log != s.log {
      var e := t.log[|s.log|];
      assert t.log == s.log + [e];
      forall k: nat
        ensures k < |t.workers| ==> Matches(t.log, k, t.workers[k])
        ensures k >= |t.workers| ==> VerdictOn(t.log, k) == VerdictOn(s.log, k)
        ensures ToldIn(t.log, k) == ToldIn(s.log, k)
      {
        OneMoreEvent(s.log, e, k);
        if k < |s.workers| && k != w {
          SameStory(s.log, e, k, s.workers[k]);
        } else if e.Recorded? && k == w {
          assert Recorded(w, e.error) in t.log;
        }
      }
    }
  }

  /** In every run each worker is where the log tells. */
  lemma {:induction false} EveryRunTells(steps: seq<Step>)
    requires After(steps).Some?
    ensures Story(After(steps).value)
  {
    hide Kept, Enabled, Next, Story;
    if steps == [] {
      FreshTells();
    } else {
      var before, step := steps[..|steps| - 1], steps[|steps| - 1];
      EveryRunTells(before);
      EveryRunIsKept(before);
      var s := After(before).value;
      if step.Advance? {
        LineTells(s);
      } else if step.CallUpdate? || step.CallClose? || step.StartRefused? || step.JoinElapsed? {
        AskerTells(s, step);
      } else {
        WorkerTells(s, step);
      }
    }
  }

  lemma FreshTells()
    ensures Story(FRESH)
  {
  }

  /** Over every run, of a worker that has ended: it finished if and only if its work came back
      when it had been told to stop; it died if and only if its work fell to what is not an
      `Exception`; and it failed if and only if its work raised, or came back untold, and then
      that failure is recorded. */
  lemma HowAWorkerEnds(steps: seq<Step>, k: nat)
    requires After(steps).Some? && k < |After(steps).value.workers| && After(steps).value.workers[k].Gone?
    ensures var log, how := After(steps).value.log, After(steps).value.workers[k].how;
            && VerdictOn(log, k).Some?
            && (how == Finished <==> VerdictOn(log, k) == Some(WasTold))
            && (how == Died <==> VerdictOn(log, k) == Some(Fallen))
            && (how == Failed <==> VerdictOn(log, k) == Some(Untold) || VerdictOn(log, k).value.Broken?)
            && (VerdictOn(log, k) == Some(Untold) ==> Recorded(k, ENDED) in log)
            && (VerdictOn(log, k).value.Broken? ==> Recorded(k, VerdictOn(log, k).value.error) in log)
  {
    hide After, VerdictOn, ToldIn;
    EveryRunTells(steps);
    var s := After(steps).value;
    assert Matches(s.log, k, s.workers[k]);
    EveryEnd(s.workers[k]);
  }

  /** What a verdict is, in the log itself. */
  lemma {:induction false} VerdictIs(log: seq<Event>, k: nat)
    ensures VerdictOn(log, k) == Some(WasTold) ==>
              exists i, j :: 0 <= i < j < |log| && log[i] == Told(k) && log[j] == Over(k)
    ensures VerdictOn(log, k) == Some(Untold) ==>
              exists j :: 0 <= j < |log| && log[j] == Over(k) && forall i :: 0 <= i < j ==> log[i] != Told(k)
    ensures VerdictOn(log, k).Some? && VerdictOn(log, k).value.Broken? ==>
              Broke(k, VerdictOn(log, k).value.error) in log
    ensures VerdictOn(log, k) == Some(Fallen) ==> Fell(k) in log
    ensures VerdictOn(log, k).None? <==>
              forall i :: 0 <= i < |log| ==>
                log[i] != Over(k) && log[i] != Fell(k) && !(log[i].Broke? && log[i].worker == k)
  {
    if log != [] {
      var n := |log| - 1;
      var early := log[..n];
      VerdictIs(early, k);
      assert forall i :: 0 <= i < n ==> early[i] == log[i];
      if log[n] == Over(k) && ToldIn(early, k) {
        var i :| 0 <= i < n && early[i] == Told(k);
        assert log[i] == Told(k) && log[n] == Over(k);
      } else if VerdictOn(log, k) == VerdictOn(early, k) == Some(WasTold) {
        var i, j :| 0 <= i < j < n && early[i] == Told(k) && early[j] == Over(k);
        assert log[i] == Told(k) && log[j] == Over(k);
      } else if VerdictOn(log, k) == VerdictOn(early, k) == Some(Untold) && log[n] != Over(k) {
        var j :| 0 <= j < n && early[j] == Over(k) && forall i :: 0 <= i < j ==> early[i] != Told(k);
        assert log[j] == Over(k);
      }
    }
  }

  /** A close that gets as far as its join has told the worker to stop. */
  lemma AJoinFollowsTheWord(steps: seq<Step>)
    requires After(steps).Some? && (After(steps).value.at.Joining? || After(steps).value.at.Joined?)
    ensures After(steps).value.thread.Some? && Told(After(steps).value.thread.value) in After(steps).value.log
    ensures After(steps).value.stop
  {
    hide After, VerdictOn, Matches, Legal;
    EveryRunTells(steps);
    EveryRunIsKept(steps);
  }

  // ---- what a call that comes back means -------------------------------------

  /** Why a call may raise: a failure was recorded, a join ran out, or a start was refused. */
  ghost predicate HasCause(log: seq<Event>, n: nat) {
    exists i :: 0 <= i < |log| && i < n && (log[i].Recorded? || log[i].TimedOut? || log[i].Refused?)
  }

  ghost predicate RaisesHaveCauses(log: seq<Event>) {
    forall i :: 0 <= i < |log| && log[i].Raised? ==> HasCause(log, i)
  }

  ghost predicate Grounded(s: State) {
    && RaisesHaveCauses(s.log)
    && (s.failure.Some? ==> HasCause(s.log, |s.log|))
    && (forall k :: 0 <= k < |s.workers| && s.workers[k] == Unstarted ==> HasCause(s.log, |s.log|))
  }

  lemma CauseMore(log: seq<Event>, e: Event)
    requires RaisesHaveCauses(log) && (e.Raised? ==> HasCause(log, |log|))
    ensures RaisesHaveCauses(log + [e])
    ensures HasCause(log, |log|) || e.Recorded? || e.TimedOut? || e.Refused? ==> HasCause(log + [e], |log| + 1)
  {
    var more := log + [e];
    assert more[|log|] == e && forall i :: 0 <= i < |log| ==> more[i] == log[i];
    forall i | 0 <= i < |more| && more[i].Raised?
      ensures HasCause(more, i)
    {
      if j :| 0 <= j < |log| && j < i && (log[j].Recorded? || log[j].TimedOut? || log[j].Refused?) {
        assert more[j] == log[j];
      }
    }
    if j :| 0 <= j < |log| && (log[j].Recorded? || log[j].TimedOut? || log[j].Refused?) {
      assert more[j] == log[j];
    }
  }

  lemma StaysGrounded(s: State, step: Step)
    requires Grounded(s) && Enabled(s, step)
    ensures Grounded(Next(s, step))
  {
    hide HasCause, RaisesHaveCauses;
    forall e: Event | e.Raised? ==> HasCause(s.log, |s.log|)
      ensures RaisesHaveCauses(s.log + [e])
      ensures HasCause(s.log, |s.log|) || e.Recorded? || e.TimedOut? || e.Refused?
              ==> HasCause(s.log + [e], |s.log + [e]|)
    {
      CauseMore(s.log, e);
    }
    var t := Next(s, step);
    if |t.log| == |s.log| + 2 {
      var first := t.log[|s.log|];
      assert t.log == s.log + [first] + [t.log[|s.log| + 1]];
      CauseMore(s.log + [first], t.log[|s.log| + 1]);
    } else if t.log != s.log {
      assert t.log == s.log + [t.log[|s.log|]];
    }
  }

  /** In every run, a call that raises has a cause in the log before it. */
  lemma {:induction false} EveryRaiseHasACause(steps: seq<Step>)
    requires After(steps).Some?
    ensures Grounded(After(steps).value)
  {
    hide Grounded, Enabled, Next;
    if steps == [] {
      NothingRaised();
    } else {
      EveryRaiseHasACause(steps[..|steps| - 1]);
      StaysGrounded(After(steps[..|steps| - 1]).value, steps[|steps| - 1]);
    }
  }

  lemma NothingRaised()
    ensures Grounded(FRESH)
  {
  }

  lemma AReturn(s: State, step: Step, since: nat, wanted: bool)
    requires Kept(s) && Enabled(s, step) && |Next(s, step).log| > |s.log|
    requires Next(s, step).log[|Next(s, step).log| - 1] == Returned(since, wanted)
    ensures var t := Next(s, step);
            && (!wanted ==> t.thread == None && forall k :: 0 <= k < |t.workers| ==> t.workers[k].Gone?)
            && (wanted ==> t.thread.Some?)
  {
    hide Legal, FailureIsRecorded;
    assert step == Advance;
  }

  /** In every run, the step at which a close, or an update that wants no worker, returns
      leaves none behind; that at which a wanted update returns leaves a current worker. */
  lemma WhatAReturnLeaves(steps: seq<Step>, step: Step, since: nat, wanted: bool)
    requires After(steps + [step]).Some?
    requires After(steps).Some? && |After(steps + [step]).value.log| > |After(steps).value.log|
    requires After(steps + [step]).value.log[|After(steps + [step]).value.log| - 1] == Returned(since, wanted)
    ensures var t := After(steps + [step]).value;
            && (!wanted ==> t.thread == None && forall k :: 0 <= k < |t.workers| ==> t.workers[k].Gone?)
            && (wanted ==> t.thread.Some?)
  {
    assert (steps + [step])[..|steps|] == steps;
    hide After, Legal;
    EveryRunIsKept(steps);
    AReturn(After(steps).value, step, since, wanted);
  }

  /** A wanted update whose next line ends it normally with nobody at work and no failure
      to tell of. */
  ghost predicate Unnoticed(s: State)
    requires s.at != Outside
  {
    && Line(s) == Return(s, true) && Line(s).failure == None
    && forall k :: 0 <= k < |Line(s).workers| ==> !Alive(Line(s).workers[k])
  }

  /** Refused its start, dead, or finished, with nothing recorded. */
  predicate GoneUnseen(life: Life) {
    life == Unstarted || life == Gone(Died) || life == Gone(Finished)
  }

  /** In every run, a wanted update that has looked at the failure goes unnoticed if and
      only if the current worker was refused its start, died of what is not an
      `Exception`, or finished once its stop had been given up on. */
  lemma UnnoticedIff(steps: seq<Step>)
    requires After(steps).Some? && After(steps).value.at.Looked? && After(steps).value.at.wanted
    ensures var s := After(steps).value;
            Unnoticed(s) <==> s.thread.Some? && s.thread.value < |s.workers|
                              && GoneUnseen(s.workers[s.thread.value])
  {
    hide After, Legal;
    EveryRunIsKept(steps);
    var s := After(steps).value;
    assert |Return(s, true).log| == |s.log| + 1;
    if s.thread == None {
      assert |Line(s).log| == |s.log| + 2;
    } else {
      var k := s.thread.value;
      assert Line(s) == Return(s, true) && Line(s).workers == s.workers && Line(s).failure == s.failure;
      assert EndedIn(s.workers[k], Failed) <==> s.failure.Some?;
      assert forall j :: 0 <= j < |s.workers| && j != k ==> !Alive(s.workers[j]);
      EveryEnd(s.workers[k]);
    }
  }

  lemma EveryEnd(life: Life)
    ensures GoneUnseen(life) <==> !Alive(life) && !EndedIn(life, Failed)
  {
    if life.Gone? {
      assert life == Gone(life.how);
      match life.how
      case Finished =>
      case Failed =>
      case Died =>
    }
  }

  const DEATH: seq<Step> :=
    [CallUpdate(true), Advance, Advance, WorkDies(0), WorkerOn(0), CallUpdate(true), Advance, Advance]

  /** The first of the three: the worker dies and the next wanted update returns. */
  lemma ADeathGoesUnnoticed()
    ensures After(DEATH).Some?
    ensures After(DEATH).value.workers == [Gone(Died)] && After(DEATH).value.failure == None
    ensures After(DEATH).value.log == [Started(0), Returned(0, true), Fell(0), Returned(3, true)]
  {
    hide After;
    assert DEATH[..8] == DEATH;
    var s3 := AWorkerStarts(DEATH);
    var s4 := OneMore(DEATH, 3, s3);
    assert s4 == s3.(workers := [Leaving(Died)], log := s3.log + [Fell(0)]);
    var s5 := OneMore(DEATH, 4, s4);
    assert s5 == s4.(workers := [Gone(Died)]);
    var s8 := TheNextReturns(DEATH, 5, s5);
  }

  /** A first wanted update starts a worker. */
  lemma AWorkerStarts(steps: seq<Step>) returns (s: State)
    requires |steps| >= 3 && steps[0] == CallUpdate(true) && steps[1] == steps[2] == Advance
    ensures After(steps[..3]) == Some(s)
    ensures s == State([Working], Some(0), false, None, Outside, [Started(0), Returned(0, true)])
  {
    hide After;
    assert steps[..0] == [];
    NoSteps();
    var s1 := OneMore(steps, 0, FRESH);
    var s2 := OneMore(steps, 1, s1);
    s := OneMore(steps, 2, s2);
    assert s.workers == [Working] && s.log == [Started(0), Returned(0, true)];
  }

  /** A wanted update called in such a state returns. */
  lemma TheNextReturns(steps: seq<Step>, n: nat, s: State) returns (t: State)
    requires n + 3 <= |steps| && steps[n] == CallUpdate(true) && steps[n + 1] == steps[n + 2] == Advance
    requires After(steps[..n]) == Some(s) && s.at == Outside && s.failure == None && s.thread.Some?
    ensures After(steps[..n + 3]) == Some(t) && t == s.(log := s.log + [Returned(|s.log|, true)])
  {
    hide After;
    var s1 := OneMore(steps, n, s);
    assert s1 == s.(at := Entered(true, |s.log|));
    var s2 := OneMore(steps, n + 1, s1);
    t := OneMore(steps, n + 2, s2);
  }

  const REFUSED: seq<Step> := [CallUpdate(true), Advance, StartRefused, CallUpdate(true), Advance, Advance]

  /** The second: the system refuses the thread, that call raises, and the next returns. */
  lemma ARefusedStartGoesUnnoticed()
    ensures After(REFUSED).Some?
    ensures After(REFUSED).value.workers == [Unstarted] && After(REFUSED).value.failure == None
    ensures After(REFUSED).value.log == [Refused(0), Raised(0), Returned(2, true)]
  {
    hide After;
    assert REFUSED[..0] == [] && REFUSED[..6] == REFUSED;
    NoSteps();
    var s1 := OneMore(REFUSED, 0, FRESH);
    var s2 := OneMore(REFUSED, 1, s1);
    var s3 := OneMore(REFUSED, 2, s2);
    assert s3 == State([Unstarted], Some(0), false, None, Outside, [Refused(0), Raised(0)]);
    var s6 := TheNextReturns(REFUSED, 3, s3);
  }

  const LATE: seq<Step> :=
    [CallUpdate(true), Advance, Advance, CallClose, Advance, JoinElapsed, Advance, WorkReturns(0), WorkerOn(0),
     WorkerOn(0), CallUpdate(true), Advance, Advance]

  /** The third: a close gives up on the worker, which then finishes as it was told, and
      the next wanted update returns. */
  lemma ALateEndGoesUnnoticed()
    ensures After(LATE).Some?
    ensures After(LATE).value.workers == [Gone(Finished)] && After(LATE).value.failure == None
    ensures After(LATE).value.log
         == [Started(0), Returned(0, true), Told(0), TimedOut(0), Raised(2), Over(0), Returned(6, true)]
  {
    hide After;
    assert LATE[..13] == LATE;
    var s3 := AWorkerStarts(LATE);
    var s7 := TheCloseGivesUp(s3);
    var s10 := TheWorkerFinishes(s7);
    var s13 := TheNextReturns(LATE, 10, s10);
  }

  lemma TheCloseGivesUp(s: State) returns (t: State)
    requires After(LATE[..3]) == Some(s)
    requires s == State([Working], Some(0), false, None, Outside, [Started(0), Returned(0, true)])
    ensures After(LATE[..7]) == Some(t)
    ensures t == State([Working], Some(0), true, None, Outside,
                       [Started(0), Returned(0, true), Told(0), TimedOut(0), Raised(2)])
  {
    hide After;
    var s4 := OneMore(LATE, 3, s);
    var s5 := OneMore(LATE, 4, s4);
    assert s5 == s.(stop := true, at := Joining(2), log := s.log + [Told(0)]);
    var s6 := OneMore(LATE, 5, s5);
    assert s6 == s5.(at := Joined(2));
    t := OneMore(LATE, 6, s6);
  }

  lemma TheWorkerFinishes(s: State) returns (t: State)
    requires After(LATE[..7]) == Some(s) && s.workers == [Working] && s.stop
    ensures After(LATE[..10]) == Some(t) && t == s.(workers := [Gone(Finished)], log := s.log + [Over(0)])
  {
    hide After;
    var s8 := OneMore(LATE, 7, s);
    assert s8 == s.(workers := [Back]);
    var s9 := OneMore(LATE, 8, s8);
    assert s9 == s.(workers := [Leaving(Finished)], log := s.log + [Over(0)]);
    t := OneMore(LATE, 9, s9);
    assert t.workers == [Gone(Finished)];
  }

  lemma NoSteps()
    ensures After([]) == Some(FRESH)
  {
  }

  lemma OneMore(steps: seq<Step>, k: nat, s: State) returns (next: State)
    requires k < |steps| && After(steps[..k]) == Some(s) && Enabled(s, steps[k])
    ensures next == Next(s, steps[k]) && After(steps[..k + 1]) == Some(next)
  {
    assert steps[..k + 1][..k] == steps[..k];
    next := Next(s, steps[k]);
  }
}
