/** One capture per session: a lock, a file with the owner's process number, and the
    command that stops the owner (spikes/switch-room/capture_control.py). Any number
    of captures, stops and other programs, each of which may die at any step. */
module CaptureControl {
  import opened Common

  /** A capture goes through `exclusive` from top to bottom. */
  datatype Stage = Opening | Locked | Truncated | Body | Clearing | Unlocking

  /** A stop: looks for the file, reads it, looks at the process, signals it, waits for
      the lock, has it for an instant. */
  datatype Stop = Looking | Reading | Checking(pid: nat) | Signalling(pid: nat) | Waiting | Holding

  datatype How = NoFile | NoProcess | ThroughLock | Refused

  datatype Process = Capture(stage: Stage) | Stopper(stop: Stop) | Foreign | Finished(how: How) | Dead

  datatype PidFile = Absent | Empty | Pid(pid: nat)

  datatype State = State(all: map<nat, Process>, lock: Option<nat>, file: PidFile, signalled: set<nat>,
                         crashed: bool)

  const FRESH := State(map[], None, Absent, {}, false)

  datatype Step =
    | Spawn(p: nat, process: Process)  // a number may be used again once its process is gone
    | Go(p: nat)                       // the process's next line
    | GiveUp(p: nat)                   // ten seconds passed
    | Die(p: nat)                      // at any point; the system drops its lock

  predicate Gone(process: Process) {
    process == Dead || process.Finished?
  }

  predicate Enabled(s: State, step: Step) {
    match step
    case Spawn(p, process) =>
      && (p !in s.all || Gone(s.all[p]))
      && (process == Capture(Opening) || process == Stopper(Looking) || process == Foreign)
    case Go(p) => p in s.all && (s.all[p].Capture? || s.all[p].Stopper?)
    case GiveUp(p) => p in s.all && s.all[p] == Stopper(Waiting) && s.lock.Some?
    case Die(p) => p in s.all && !Gone(s.all[p])
  }

  function To(s: State, p: nat, process: Process): State {
    s.(all := s.all[p := process])
  }

  /** A process that ends, one way or the other, holds nothing. */
  function Ended(s: State, p: nat, process: Process): State {
    To(s, p, process).(lock := if s.lock == Some(p) then None else s.lock)
  }

  function CaptureLine(s: State, p: nat, stage: Stage): State {
    match stage
    case Opening =>
      if s.lock == None then To(s, p, Capture(Locked)).(lock := Some(p)) else Ended(s, p, Finished(Refused))
    case Locked => To(s, p, Capture(Truncated)).(file := Empty)
    case Truncated => To(s, p, Capture(Body)).(file := Pid(p))
    case Body => To(s, p, Capture(Clearing))
    case Clearing => To(s, p, Capture(Unlocking)).(file := Absent)
    case Unlocking => Ended(s, p, Dead)
  }

  function StopLine(s: State, p: nat, stop: Stop): State {
    match stop
    case Looking => if s.file == Absent then Ended(s, p, Finished(NoFile)) else To(s, p, Stopper(Reading))
    case Reading =>
      // an empty or vanished file is an error
      if s.file.Pid? then To(s, p, Stopper(Checking(s.file.pid))) else Ended(s, p, Finished(Refused))
    case Checking(q) =>
      if q !in s.all || Gone(s.all[q]) then Ended(s, p, Finished(NoProcess))
      else if s.all[q].Capture? then To(s, p, Stopper(Signalling(q)))
      else Ended(s, p, Finished(Refused))
    case Signalling(q) =>
      if q !in s.all || Gone(s.all[q]) then Ended(s, p, Finished(Refused))
      else To(s, p, Stopper(Waiting)).(signalled := s.signalled + {q})
    case Waiting => if s.lock == None then To(s, p, Stopper(Holding)).(lock := Some(p)) else s
    case Holding => Ended(s, p, Finished(ThroughLock))
  }

  function Next(s: State, step: Step): State
    requires Enabled(s, step)
  {
    match step
    case Spawn(p, process) => To(s, p, process)
    case Go(p) => if s.all[p].Capture? then CaptureLine(s, p, s.all[p].stage) else StopLine(s, p, s.all[p].stop)
    case GiveUp(p) => Ended(s, p, Finished(Refused))
    case Die(p) => Ended(s, p, Dead).(crashed := true)
  }

  /** The state after some steps, if each of them could be taken. */
  function From(s: State, steps: seq<Step>): Option<State> {
    if steps == [] then Some(s)
    else
      var before := From(s, steps[..|steps| - 1]);
      if before.Some? && Enabled(before.value, steps[|steps| - 1])
      then Some(Next(before.value, steps[|steps| - 1])) else None
  }

  function After(steps: seq<Step>): Option<State> {
    From(FRESH, steps)
  }

  // ---- what every run keeps --------------------------------------------------

  /** Inside the lock, as a capture or as the instant of a stop. */
  predicate Inside(process: Process) {
    (process.Capture? && process.stage != Opening) || process == Stopper(Holding)
  }

  /** The lock is whole: exactly its owner is inside. */
  ghost predicate LockIsWhole(s: State) {
    && (s.lock.Some? ==> s.lock.value in s.all)
    && forall p :: p in s.all ==> (Inside(s.all[p]) <==> s.lock == Some(p))
  }

  function Owner(s: State): Process {
    if s.lock.Some? && s.lock.value in s.all then s.all[s.lock.value] else Dead
  }

  /** Between its first write and its removal. */
  predicate HasFile(process: Process) {
    process == Capture(Truncated) || process == Capture(Body) || process == Capture(Clearing)
  }

  /** What the file says while a capture is inside, and, as long as nothing died, that
      there is one whenever there is a file. */
  ghost predicate FileIsTrue(s: State) {
    && (Owner(s) == Capture(Truncated) ==> s.file == Empty)
    && (Owner(s) == Capture(Body) || Owner(s) == Capture(Clearing) ==> s.file == Pid(s.lock.value))
    && (Owner(s) == Capture(Unlocking) ==> s.file == Absent)
    && (!s.crashed ==> (s.file != Absent <==> HasFile(Owner(s))))
  }

  ghost predicate Kept(s: State) {
    LockIsWhole(s) && FileIsTrue(s)
  }

  /** A process that stays outside the lock, or ends there. */
  lemma OutsideKeeps(s: State, p: nat, process: Process)
    requires Kept(s) && s.lock != Some(p) && !Inside(process)
    ensures Kept(To(s, p, process))
  {
  }

  lemma EndedKeeps(s: State, p: nat, process: Process)
    requires Kept(s) && p in s.all && !Inside(process)
    requires s.lock == Some(p) ==> s.file == Absent || s.crashed
    ensures Kept(Ended(s, p, process))
  {
  }

  /** The lock's owner goes on inside, with its file. */
  lemma InsideKeeps(s: State, p: nat, process: Process, file: PidFile)
    requires Kept(s) && (s.lock == Some(p) || s.lock == None) && Inside(process)
    requires process == Capture(Truncated) ==> file == Empty
    requires process == Capture(Body) || process == Capture(Clearing) ==> file == Pid(p)
    requires process == Capture(Unlocking) ==> file == Absent
    requires !s.crashed ==> (file != Absent <==> HasFile(process))
    ensures Kept(To(s, p, process).(lock := Some(p), file := file))
  {
  }

  lemma CaptureKeeps(s: State, p: nat)
    requires Kept(s) && p in s.all && s.all[p].Capture?
    ensures Kept(CaptureLine(s, p, s.all[p].stage))
  {
    hide Kept;
    OwnerIs(s, p);
    match s.all[p].stage
    case Opening =>
      if s.lock == None {
        InsideKeeps(s, p, Capture(Locked), s.file);
      } else {
        EndedKeeps(s, p, Finished(Refused));
      }
    case Locked => InsideKeeps(s, p, Capture(Truncated), Empty);
    case Truncated => InsideKeeps(s, p, Capture(Body), Pid(p));
    case Body => InsideKeeps(s, p, Capture(Clearing), s.file);
    case Clearing => InsideKeeps(s, p, Capture(Unlocking), Absent);
    case Unlocking => EndedKeeps(s, p, Dead);
  }

  /** What a process knows of the lock and the file by being where it is. */
  lemma OwnerIs(s: State, p: nat)
    requires Kept(s) && p in s.all
    ensures Inside(s.all[p]) <==> s.lock == Some(p)
    ensures s.all[p] == Capture(Body) || s.all[p] == Capture(Clearing) ==> s.file == Pid(p)
    ensures s.all[p] == Capture(Unlocking) || s.all[p] == Stopper(Holding) ==> s.file == Absent || s.crashed
    ensures s.lock == None || s.all[p] == Capture(Locked) ==> s.file == Absent || s.crashed
  {
  }

  lemma StopKeeps(s: State, p: nat)
    requires Kept(s) && p in s.all && s.all[p].Stopper?
    ensures Kept(StopLine(s, p, s.all[p].stop))
  {
    hide Kept;
    OwnerIs(s, p);
    var next := StopLine(s, p, s.all[p].stop).all[p];
    if s.all[p].stop == Holding || Gone(next) {
      EndedKeeps(s, p, next);
    } else if next == Stopper(Holding) {
      InsideKeeps(s, p, next, s.file);
    } else {
      OutsideKeeps(s, p, next);
      SignalKeeps(To(s, p, next), StopLine(s, p, s.all[p].stop).signalled);
    }
  }

  lemma SignalKeeps(s: State, signalled: set<nat>)
    requires Kept(s)
    ensures Kept(s.(signalled := signalled)) && Kept(s.(crashed := true))
  {
  }

  lemma StepKeeps(s: State, step: Step)
    requires Kept(s) && Enabled(s, step)
    ensures Kept(Next(s, step))
  {
    hide Kept;
    match step
    case Go(p) =>
      if s.all[p].Capture? {
        CaptureKeeps(s, p);
      } else {
        StopKeeps(s, p);
      }
    case Die(p) =>
      SignalKeeps(s, s.signalled);
      EndedKeeps(s.(crashed := true), p, Dead);
    case Spawn(p, process) =>
      NewIsOutside(s, p);
      OutsideKeeps(s, p, process);
    case GiveUp(p) =>
      OwnerIs(s, p);
      EndedKeeps(s, p, Finished(Refused));
  }

  lemma NewIsOutside(s: State, p: nat)
    requires Kept(s) && (p !in s.all || Gone(s.all[p]))
    ensures s.lock != Some(p)
  {
  }

  lemma {:induction false} EveryRunIsKept(steps: seq<Step>)
    requires After(steps).Some?
    ensures Kept(After(steps).value)
  {
    hide Kept, Next, Enabled;
    if steps != [] {
      EveryRunIsKept(steps[..|steps| - 1]);
      StepKeeps(After(steps[..|steps| - 1]).value, steps[|steps| - 1]);
    } else {
      FreshIsKept();
    }
  }

  lemma FreshIsKept()
    ensures Kept(FRESH)
  {
  }

  // ---- mutual exclusion and the file -----------------------------------------

  /** At most one capture is between taking the lock and giving it back. */
  lemma OneCaptureInside(steps: seq<Step>, p: nat, q: nat)
    requires After(steps).Some?
    requires var all := After(steps).value.all;
             p in all && q in all && Inside(all[p]) && Inside(all[q])
    ensures p == q
  {
    hide After;
    EveryRunIsKept(steps);
  }

  /** Through its whole body, the file names the capture that has the lock. */
  lemma TheFileNamesTheOwner(steps: seq<Step>, p: nat)
    requires After(steps).Some?
    requires p in After(steps).value.all && After(steps).value.all[p] == Capture(Body)
    ensures After(steps).value.lock == Some(p) && After(steps).value.file == Pid(p)
  {
    hide After;
    EveryRunIsKept(steps);
  }

  /** Nobody but the capture that has the lock writes or removes the file. */
  lemma OnlyTheOwnerWrites(steps: seq<Step>, step: Step)
    requires After(steps).Some? && Enabled(After(steps).value, step)
    ensures var s := After(steps).value;
            Next(s, step).file != s.file ==> step.Go? && s.lock == Some(step.p) && s.all[step.p].Capture?
  {
    hide After;
    EveryRunIsKept(steps);
  }

  /** A file with no capture behind it was left by one that died. */
  lemma AStaleFileMeansADeath(steps: seq<Step>)
    requires After(steps).Some? && After(steps).value.file != Absent
    requires forall p :: p in After(steps).value.all && After(steps).value.all[p].Capture? ==>
                After(steps).value.lock != Some(p)
    ensures After(steps).value.crashed
  {
    hide After;
    EveryRunIsKept(steps);
  }

  // ---- who is signalled ------------------------------------------------------

  /** At some moment of the run so far the file named this number; and a capture had it. */
  ghost predicate Named(steps: seq<Step>, q: nat) {
    exists i :: 0 <= i <= |steps| && After(steps[..i]).Some? && After(steps[..i]).value.file == Pid(q)
  }

  ghost predicate WasCapture(steps: seq<Step>, q: nat) {
    exists i :: 0 <= i <= |steps| && CaptureAt(After(steps[..i]), q)
  }

  predicate CaptureAt(s: Option<State>, q: nat) {
    s.Some? && q in s.value.all && s.value.all[q].Capture?
  }

  /** A stop goes by a number the file named, and signals one that it saw a capture have. */
  ghost predicate GoesBy(steps: seq<Step>, process: Process, signalled: set<nat>) {
    && (process.Stopper? && process.stop.Checking? ==> Named(steps, process.stop.pid))
    && (process.Stopper? && process.stop.Signalling? ==>
          Named(steps, process.stop.pid) && WasCapture(steps, process.stop.pid))
    && (HasSignalled(process) ==> signalled != {})
  }

  ghost predicate Careful(steps: seq<Step>, s: State) {
    && (forall p :: p in s.all ==> GoesBy(steps, s.all[p], s.signalled))
    && (forall q :: q in s.signalled ==> Named(steps, q) && WasCapture(steps, q))
  }

  predicate HasSignalled(process: Process) {
    process == Stopper(Waiting) || process == Stopper(Holding) || process == Finished(ThroughLock)
  }

  lemma NamedMore(steps: seq<Step>, step: Step)
    ensures forall q :: Named(steps, q) ==> Named(steps + [step], q)
    ensures forall q :: WasCapture(steps, q) ==> WasCapture(steps + [step], q)
    ensures After(steps).Some? ==>
              && (After(steps).value.file.Pid? ==> Named(steps + [step], After(steps).value.file.pid))
              && (forall q :: CaptureAt(After(steps), q) ==> WasCapture(steps + [step], q))
  {
    hide After;
    var more := steps + [step];
    assert forall i :: 0 <= i <= |steps| ==> more[..i] == steps[..i];
    assert more[..|steps|] == steps;
  }

  /** A step changes its own process, and signals at most the one that process goes by. */
  lemma OneProcess(s: State, step: Step)
    requires Enabled(s, step)
    ensures forall r :: r in Next(s, step).all ==>
              r == step.p || (r in s.all && Next(s, step).all[r] == s.all[r])
    ensures step.p in Next(s, step).all && s.signalled <= Next(s, step).signalled
    ensures forall q :: q in Next(s, step).signalled && q !in s.signalled ==>
              step.p in s.all && s.all[step.p] == Stopper(Signalling(q))
  {
  }

  lemma NextGoesBy(steps: seq<Step>, step: Step)
    requires After(steps).Some? && Enabled(After(steps).value, step) && Careful(steps, After(steps).value)
    ensures var t := Next(After(steps).value, step);
            step.p in t.all && GoesBy(steps + [step], t.all[step.p], t.signalled)
  {
    hide After, Named, WasCapture;
    var s := After(steps).value;
    NamedMore(steps, step);
    assert step.p in s.all ==> GoesBy(steps, s.all[step.p], s.signalled);
  }

  lemma StaysCareful(steps: seq<Step>, step: Step)
    requires After(steps).Some? && Enabled(After(steps).value, step) && Careful(steps, After(steps).value)
    ensures Careful(steps + [step], Next(After(steps).value, step))
  {
    hide After, Named, WasCapture, Next, Enabled;
    var s := After(steps).value;
    NamedMore(steps, step);
    OneProcess(s, step);
    NextGoesBy(steps, step);
    assert step.p in s.all ==> GoesBy(steps, s.all[step.p], s.signalled);
  }

  lemma {:induction false} EveryRunIsCareful(steps: seq<Step>)
    requires After(steps).Some?
    ensures Careful(steps, After(steps).value)
  {
    hide Careful, Enabled, Next;
    if steps == [] {
      FreshIsCareful();
    } else {
      var early := steps[..|steps| - 1];
      EveryRunIsCareful(early);
      assert early + [steps[|steps| - 1]] == steps;
      StaysCareful(early, steps[|steps| - 1]);
    }
  }

  lemma FreshIsCareful()
    ensures Careful([], FRESH)
  {
  }

  /** In every run only a number is signalled that the file named and that a capture had; and
      a stop that waited for the lock has signalled one. */
  lemma OnlyCapturesAreSignalled(steps: seq<Step>, p: nat, q: nat)
    requires After(steps).Some?
    ensures q in After(steps).value.signalled ==> Named(steps, q) && WasCapture(steps, q)
    ensures p in After(steps).value.all && HasSignalled(After(steps).value.all[p]) ==>
              After(steps).value.signalled != {}
  {
    hide After, Named, WasCapture;
    EveryRunIsCareful(steps);
  }

  /** Between the look at the process and the signal, what has the number is that capture, or
      nobody any more, unless the number has been given to another. */
  lemma {:induction false} AnotherIsHitOnlyIfReused(s: State, steps: seq<Step>, q: nat)
    requires q in s.all && s.all[q].Capture? && From(s, steps).Some?
    requires forall i :: 0 <= i < |steps| ==> !(steps[i].Spawn? && steps[i].p == q)
    ensures q in From(s, steps).value.all
    ensures From(s, steps).value.all[q].Capture? || Gone(From(s, steps).value.all[q])
  {
    hide Enabled;
    if steps != [] {
      var early := steps[..|steps| - 1];
      assert forall i :: 0 <= i < |early| ==> early[i] == steps[i];
      AnotherIsHitOnlyIfReused(s, early, q);
      KindStays(From(s, early).value, steps[|steps| - 1], q);
    }
  }

  lemma KindStays(s: State, step: Step, q: nat)
    requires Enabled(s, step) && q in s.all && (s.all[q].Capture? || Gone(s.all[q]))
    requires !(step.Spawn? && step.p == q)
    ensures q in Next(s, step).all && (Next(s, step).all[q].Capture? || Gone(Next(s, step).all[q]))
  {
  }

  /** And then it may be hit: the capture that was seen dies, its number is given to another
      program, and that one is signalled. */
  lemma AReusedNumberIsHit(s: State, p: nat, q: nat)
    requires p in s.all && s.all[p] == Stopper(Signalling(q)) && q in s.all && s.all[q].Capture? && p != q
    ensures var t := From(s, [Die(q), Spawn(q, Foreign), Go(p)]);
            t.Some? && q in t.value.all && t.value.all[q] == Foreign && q in t.value.signalled
  {
    var steps := [Die(q), Spawn(q, Foreign), Go(p)];
    assert steps[..2] == [Die(q), Spawn(q, Foreign)] && steps[..2][..1] == [Die(q)] && [Die(q)][..0] == [];
    assert From(s, steps[..2][..1]) == Some(Next(s, Die(q)));
    assert From(s, steps[..2]) == Some(Next(Next(s, Die(q)), Spawn(q, Foreign)));
  }

  // ---- what a stop does of itself --------------------------------------------

  /** The lines of its own that a process went through. */
  function OwnLines(steps: seq<Step>, p: nat): nat {
    if steps == [] then 0
    else OwnLines(steps[..|steps| - 1], p) + if steps[|steps| - 1] == Go(p) then 1 else 0
  }

  /** Where a stop is after so many lines, while the capture it found goes on with its work. */
  ghost predicate OnTheTrail(s: State, p: nat, c: nat, lines: nat, gaveUp: bool) {
    && p in s.all && c in s.all && s.all[c] == Capture(Body)
    && s.all[p] == (if lines == 0 then Stopper(Looking) else if lines == 1 then Stopper(Reading)
                    else if lines == 2 then Stopper(Checking(c)) else if lines == 3 then Stopper(Signalling(c))
                    else if gaveUp then Finished(Refused) else Stopper(Waiting))
    && (gaveUp ==> lines >= 4) && (lines >= 4 ==> c in s.signalled)
  }

  /** Whatever others do, a stop that begins while a capture is at its work signals that one by
      its fourth line and then waits, and ends only by giving up, for as long as neither dies
      and the capture stays there. */
  lemma {:induction false} AStopFindsTheCapture(s: State, steps: seq<Step>, p: nat, c: nat)
    requires Kept(s) && OnTheTrail(s, p, c, 0, false)
    requires From(s, steps).Some?
    requires forall i :: 0 <= i < |steps| ==>
               steps[i].p != c && (steps[i].p == p ==> steps[i] == Go(p) || steps[i] == GiveUp(p))
    ensures Kept(From(s, steps).value)
    ensures OnTheTrail(From(s, steps).value, p, c, OwnLines(steps, p), GiveUp(p) in steps)
  {
    hide Kept, Next, Enabled, OnTheTrail;
    if steps != [] {
      var m := |steps| - 1;
      AStopFindsTheCapture(s, steps[..m], p, c);
      var before := From(s, steps[..m]).value;
      assert steps == steps[..m] + [steps[m]];
      StepKeeps(before, steps[m]);
      StaysOnTheTrail(before, steps[m], p, c, OwnLines(steps[..m], p), GiveUp(p) in steps[..m]);
    }
  }

  lemma StaysOnTheTrail(s: State, step: Step, p: nat, c: nat, lines: nat, gaveUp: bool)
    requires Kept(s) && OnTheTrail(s, p, c, lines, gaveUp) && Enabled(s, step)
    requires step.p != c && (step.p == p ==> step == Go(p) || step == GiveUp(p))
    ensures OnTheTrail(Next(s, step), p, c, lines + if step == Go(p) then 1 else 0, gaveUp || step == GiveUp(p))
  {
    assert Inside(s.all[c]);
  }

  /** What a stop knows when it refuses: the file is there no more or names nobody, the process
      it named is there and is no capture, or was one and has gone, or ten seconds went by with
      somebody inside. */
  ghost predicate HasReason(s: State, step: Step)
    requires step.p in s.all
  {
    match s.all[step.p]
    case Stopper(Reading) => step.Go? && (s.file == Absent || s.file == Empty)
    case Stopper(Checking(q)) => step.Go? && q in s.all && !Gone(s.all[q]) && !s.all[q].Capture?
    case Stopper(Signalling(q)) => step.Go? && (q in s.all ==> Gone(s.all[q]))
    case Stopper(Waiting) => step.GiveUp? && exists q :: q in s.all && Inside(s.all[q])
    case _ => false
  }

  /** In every run, a stop refuses for these reasons and no other. */
  lemma AStopRefusesIff(steps: seq<Step>, step: Step)
    requires After(steps).Some? && Enabled(After(steps).value, step) && (step.Go? || step.GiveUp?)
    requires step.p in After(steps).value.all && After(steps).value.all[step.p].Stopper?
    ensures Next(After(steps).value, step).all[step.p] == Finished(Refused)
            <==> HasReason(After(steps).value, step)
  {
    hide After;
    EveryRunIsKept(steps);
    var s := After(steps).value;
    if step.GiveUp? {
      assert Inside(s.all[s.lock.value]);
    }
  }

  // ---- what a stop that returns means ----------------------------------------

  /** A stop that comes back through the lock took it at an instant when no capture
      was inside. */
  lemma ThroughTheLock(steps: seq<Step>, p: nat)
    requires After(steps).Some? && p in After(steps).value.all
    requires After(steps).value.all[p] == Stopper(Waiting)
    ensures var s := After(steps).value;
            Next(s, Go(p)).all[p] == Stopper(Holding)
            <==> forall q :: q in s.all ==> !Inside(s.all[q])
  {
    hide After;
    EveryRunIsKept(steps);
    var s := After(steps).value;
    if s.lock.Some? {
      assert Inside(s.all[s.lock.value]);
    }
  }

  /** A stop that finds no file misses a capture exactly while that one has the lock
      and has not written its file yet, or has already removed it. */
  lemma NoFileMeansNoBody(steps: seq<Step>, p: nat, q: nat)
    requires After(steps).Some? && p in After(steps).value.all && q in After(steps).value.all
    requires After(steps).value.all[p] == Stopper(Looking) && After(steps).value.all[q].Capture?
    requires Next(After(steps).value, Go(p)).all[p] == Finished(NoFile)
    ensures var stage := After(steps).value.all[q].stage;
            stage == Opening || stage == Locked || stage == Unlocking
  {
    hide After;
    EveryRunIsKept(steps);
  }

  /** A stop that finds no file finds no capture between its first write and the removal,
      and, as long as nothing has died, the other way round. */
  lemma NoFileIff(steps: seq<Step>, p: nat)
    requires After(steps).Some? && p in After(steps).value.all
    requires After(steps).value.all[p] == Stopper(Looking)
    ensures var s := After(steps).value;
            && (Next(s, Go(p)).all[p] == Finished(NoFile) ==> forall q :: q in s.all ==> !HasFile(s.all[q]))
            && (!s.crashed && (forall q :: q in s.all ==> !HasFile(s.all[q])) ==>
                  Next(s, Go(p)).all[p] == Finished(NoFile))
  {
    hide After;
    EveryRunIsKept(steps);
  }

  predicate ReturnedNormally(s: State, p: nat) {
    p in s.all && s.all[p].Finished? && s.all[p].how != Refused
  }

  /** A stop still at work, and a capture with the lock. */
  predicate Both(s: Option<State>, p: nat, c: nat) {
    && s.Some? && s.value.lock == Some(c) && p in s.value.all && s.value.all[p].Stopper?
    && c in s.value.all && s.value.all[c].Capture?
  }

  /** From its look at the file to its normal return, a stop leaves a capture in
      possession of the lock. */
  ghost predicate Misses(s: State, steps: seq<Step>, p: nat, c: nat) {
    && steps != [] && steps[0] == Go(p)
    && (forall n :: 0 <= n < |steps| ==> Both(From(s, steps[..n]), p, c))
    && From(s, steps).Some? && From(s, steps).value.lock == Some(c) && ReturnedNormally(From(s, steps).value, p)
  }

  /** A capture that has just taken the lock, with no file or one a dead process left, or
      one that has removed its file and not let go of the lock. */
  predicate AtRisk(s: State, p: nat, c: nat) {
    c in s.all && (s.all[c] == Capture(Unlocking)
                   || (s.all[c] == Capture(Locked)
                       && (s.file == Absent || (s.file.Pid? && s.file.pid != c && s.file.pid != p))))
  }

  /** A stop that has seen a file of which it can only read that it is empty, or that it
      names the capture with the lock (or the stop itself, which is an error). */
  predicate Hunting(s: State, p: nat, c: nat) {
    && Both(Some(s), p, c) && s.all[p].stop != Looking
    && (s.file.Pid? ==> s.file.pid == c || s.file.pid == p)
    && (s.all[p].stop.Checking? ==> s.all[p].stop.pid == c || s.all[p].stop.pid == p)
  }

  /** Such a stop never returns normally while the capture keeps the lock. */
  lemma HuntingStep(s: State, step: Step, p: nat, c: nat)
    requires Kept(s) && Hunting(s, p, c) && Enabled(s, step) && Next(s, step).lock == Some(c)
    ensures !ReturnedNormally(Next(s, step), p)
    ensures Both(Some(Next(s, step)), p, c) ==> Hunting(Next(s, step), p, c)
  {
    hide Kept;
    OwnerIs(s, c);
    OnlyTheOwnerIsInside(s, step, p, c);
  }

  lemma OnlyTheOwnerIsInside(s: State, step: Step, p: nat, c: nat)
    requires Kept(s) && Both(Some(s), p, c) && Enabled(s, step)
    ensures Inside(s.all[c]) && !Inside(s.all[p]) && p != c
    ensures Next(s, step).file != s.file ==> step == Go(c)
  {
  }

  lemma HuntBegins(s: State, p: nat, c: nat)
    requires Kept(s) && Both(Some(s), p, c) && s.all[p] == Stopper(Looking) && !AtRisk(s, p, c)
    ensures Enabled(s, Go(p)) && Hunting(Next(s, Go(p)), p, c)
  {
    var g := s.all[c].stage;
    assert Inside(s.all[c]) && !Inside(s.all[p]);
    assert g == Truncated ==> s.file == Empty;
    assert g == Body || g == Clearing ==> s.file == Pid(c);
  }

  /** A capture that is not at risk at the look is not missed, whatever happens next. */
  lemma {:induction false} HuntGoesOn(s: State, steps: seq<Step>, p: nat, c: nat)
    requires Kept(s) && Both(Some(s), p, c) && s.all[p] == Stopper(Looking) && !AtRisk(s, p, c)
    requires steps != [] && steps[0] == Go(p)
    requires forall n :: 0 <= n < |steps| ==> Both(From(s, steps[..n]), p, c)
    requires From(s, steps).Some? && From(s, steps).value.lock == Some(c)
    ensures Kept(From(s, steps).value) && !ReturnedNormally(From(s, steps).value, p)
    ensures Both(From(s, steps), p, c) ==> Hunting(From(s, steps).value, p, c)
  {
    hide Kept, Next, Enabled, AtRisk, Hunting, ReturnedNormally;
    var m := |steps| - 1;
    var early := steps[..m];
    if m == 0 {
      assert early == [];
      StepKeeps(s, Go(p));
      HuntBegins(s, p, c);
      StillAtWork(Next(s, Go(p)), p, c);
    } else {
      assert forall n :: 0 <= n <= m ==> early[..n] == steps[..n];
      assert early[..m] == early;
      HuntGoesOn(s, early, p, c);
      var before := From(s, early).value;
      StepKeeps(before, steps[m]);
      HuntingStep(before, steps[m], p, c);
    }
  }

  lemma StillAtWork(s: State, p: nat, c: nat)
    requires Hunting(s, p, c)
    ensures !ReturnedNormally(s, p)
  {
  }

  /** One that is at risk can be missed: the stop goes on at once, and the process a stale
      file names dies if it is not dead already. */
  lemma RiskIsReal(s: State, p: nat, c: nat) returns (steps: seq<Step>)
    requires Kept(s) && Both(Some(s), p, c) && s.all[p] == Stopper(Looking) && AtRisk(s, p, c)
    ensures Misses(s, steps, p, c)
  {
    hide Kept;
    OwnerIs(s, c);
    OnlyTheOwnerIsInside(s, Go(p), p, c);
    NothingTaken(s);
    if s.file == Absent {
      steps := [Go(p)];
      var t := OneFrom(s, steps, 0, s);
      assert steps[..0] == [] && steps[..1] == steps;
    } else {
      NoFileWhenLeaving(s, c);
      steps := StaleRead(s, p, c, s.file.pid);
    }
  }

  lemma NothingTaken(s: State)
    ensures From(s, []) == Some(s)
  {
  }

  lemma NoFileWhenLeaving(s: State, c: nat)
    requires Kept(s) && s.lock == Some(c) && c in s.all
    ensures s.all[c] == Capture(Unlocking) ==> s.file == Absent
  {
  }

  /** The stop looks and reads; the process it read of is gone or dies; it finds none. */
  lemma StaleRead(s: State, p: nat, c: nat, q: nat) returns (steps: seq<Step>)
    requires Both(Some(s), p, c) && s.all[p] == Stopper(Looking) && p != c && q != p && q != c && s.file == Pid(q)
    ensures Misses(s, steps, p, c)
  {
    hide From;
    NothingTaken(s);
    var s1 := To(s, p, Stopper(Reading));
    var s2 := To(s1, p, Stopper(Checking(q)));
    if q in s.all && !Gone(s.all[q]) {
      steps := [Go(p), Go(p), Die(q), Go(p)];
      assert steps[..0] == [] && steps[..4] == steps;
      var t1 := OneFrom(s, steps, 0, s);
      var t2 := OneFrom(s, steps, 1, t1);
      var t3 := OneFrom(s, steps, 2, t2);
      var t4 := OneFrom(s, steps, 3, t3);
    } else {
      steps := [Go(p), Go(p), Go(p)];
      assert steps[..0] == [] && steps[..3] == steps;
      var t1 := OneFrom(s, steps, 0, s);
      var t2 := OneFrom(s, steps, 1, t1);
      var t3 := OneFrom(s, steps, 2, t2);
    }
  }

  /** In every run, deaths included: a stop that looks now, while a capture has the lock,
      can come back normally with that capture still in possession of it if and only if
      the capture has just taken the lock and there is no file, or one that names another
      process, or it has removed its file and not let go. */
  lemma MissesIff(before: seq<Step>, p: nat, c: nat)
    requires Both(After(before), p, c) && After(before).value.all[p] == Stopper(Looking)
    ensures (exists steps :: Misses(After(before).value, steps, p, c)) <==> AtRisk(After(before).value, p, c)
  {
    hide After, Kept, AtRisk, ReturnedNormally;
    EveryRunIsKept(before);
    var s := After(before).value;
    if AtRisk(s, p, c) {
      var steps := RiskIsReal(s, p, c);
    } else {
      forall steps
        ensures !Misses(s, steps, p, c)
      {
        NotMissed(s, steps, p, c);
      }
    }
  }

  lemma NotMissed(s: State, steps: seq<Step>, p: nat, c: nat)
    requires Kept(s) && Both(Some(s), p, c) && s.all[p] == Stopper(Looking) && !AtRisk(s, p, c)
    ensures !Misses(s, steps, p, c)
  {
    hide Kept, AtRisk, ReturnedNormally, From;
    if && steps != [] && steps[0] == Go(p)
       && (forall n :: 0 <= n < |steps| ==> Both(From(s, steps[..n]), p, c))
       && From(s, steps).Some? && From(s, steps).value.lock == Some(c) {
      HuntGoesOn(s, steps, p, c);
    }
  }

  const STALE: seq<Step> :=
    [Spawn(1, Capture(Opening)), Go(1), Go(1), Go(1), Die(1),
     Spawn(3, Capture(Opening)), Go(3), Spawn(2, Stopper(Looking)), Go(2), Go(2), Go(2), Go(3), Go(3)]

  /** A run in which a capture dies and leaves its file, another takes the lock, and a stop
      reads the file, finds nobody and comes back while that one goes to work. */
  lemma AStaleFileHidesACapture()
    ensures After(STALE) == Some(State(map[1 := Dead, 3 := Capture(Body), 2 := Finished(NoProcess)],
                                       Some(3), Pid(3), {}, true))
  {
    hide After;
    assert STALE[..13] == STALE;
    var s5 := ACaptureDies();
    var s8 := AnotherTakesTheLock(s5);
    var s13 := TheStopReadsTheDead(s8);
  }

  lemma ACaptureDies() returns (s: State)
    ensures After(STALE[..5]) == Some(s) && s == State(map[1 := Dead], None, Pid(1), {}, true)
  {
    hide After;
    assert STALE[..0] == [];
    NoSteps();
    var s1 := OneMore(STALE, 0, FRESH);
    assert s1 == FRESH.(all := map[1 := Capture(Opening)]);
    var s2 := OneMore(STALE, 1, s1);
    assert s2 == State(map[1 := Capture(Locked)], Some(1), Absent, {}, false);
    s := ACaptureWorksAndDies(s2);
  }

  lemma ACaptureWorksAndDies(s: State) returns (t: State)
    requires After(STALE[..2]) == Some(s) && s == State(map[1 := Capture(Locked)], Some(1), Absent, {}, false)
    ensures After(STALE[..5]) == Some(t) && t == State(map[1 := Dead], None, Pid(1), {}, true)
  {
    hide After;
    var s3 := OneMore(STALE, 2, s);
    assert s3 == State(map[1 := Capture(Truncated)], Some(1), Empty, {}, false);
    var s4 := OneMore(STALE, 3, s3);
    assert s4 == State(map[1 := Capture(Body)], Some(1), Pid(1), {}, false);
    t := OneMore(STALE, 4, s4);
    assert t.all == map[1 := Dead];
  }

  lemma AnotherTakesTheLock(s: State) returns (t: State)
    requires After(STALE[..5]) == Some(s) && s == State(map[1 := Dead], None, Pid(1), {}, true)
    ensures After(STALE[..8]) == Some(t)
    ensures t == State(map[1 := Dead, 3 := Capture(Locked), 2 := Stopper(Looking)], Some(3), Pid(1), {}, true)
  {
    hide After;
    var s6 := OneMore(STALE, 5, s);
    assert s6 == s.(all := map[1 := Dead, 3 := Capture(Opening)]);
    var s7 := OneMore(STALE, 6, s6);
    assert s7.all == map[1 := Dead, 3 := Capture(Locked)];
    t := OneMore(STALE, 7, s7);
  }

  lemma TheStopReadsTheDead(s: State) returns (t: State)
    requires After(STALE[..8]) == Some(s)
    requires s == State(map[1 := Dead, 3 := Capture(Locked), 2 := Stopper(Looking)], Some(3), Pid(1), {}, true)
    ensures After(STALE[..13]) == Some(t)
    ensures t == State(map[1 := Dead, 3 := Capture(Body), 2 := Finished(NoProcess)], Some(3), Pid(3), {}, true)
  {
    hide After;
    var s9 := OneMore(STALE, 8, s);
    assert s9.all == map[1 := Dead, 3 := Capture(Locked), 2 := Stopper(Reading)];
    var s10 := OneMore(STALE, 9, s9);
    assert s10.all == map[1 := Dead, 3 := Capture(Locked), 2 := Stopper(Checking(1))];
    var s11 := OneMore(STALE, 10, s10);
    assert s11.all == map[1 := Dead, 3 := Capture(Locked), 2 := Finished(NoProcess)];
    var s12 := OneMore(STALE, 11, s11);
    assert s12.all == map[1 := Dead, 3 := Capture(Truncated), 2 := Finished(NoProcess)];
    t := OneMore(STALE, 12, s12);
    assert t.all == map[1 := Dead, 3 := Capture(Body), 2 := Finished(NoProcess)];
  }

  const EARLY: seq<Step> := [Spawn(1, Capture(Opening)), Go(1), Spawn(2, Stopper(Looking)), Go(2), Go(1), Go(1)]

  /** A run without a death in which a stop comes back while a capture has the lock, which
      then goes to work. */
  lemma AnEarlyReturn()
    ensures After(EARLY)
            == Some(State(map[1 := Capture(Body), 2 := Finished(NoFile)], Some(1), Pid(1), {}, false))
  {
    hide After;
    assert EARLY[..6] == EARLY;
    var s3 := AStopLooks();
    var s4 := OneMore(EARLY, 3, s3);
    assert s4.all == map[1 := Capture(Locked), 2 := Finished(NoFile)];
    var s5 := OneMore(EARLY, 4, s4);
    assert s5.all == map[1 := Capture(Truncated), 2 := Finished(NoFile)];
    var s6 := OneMore(EARLY, 5, s5);
    assert s6.all == map[1 := Capture(Body), 2 := Finished(NoFile)];
  }

  lemma AStopLooks() returns (s: State)
    ensures After(EARLY[..3]) == Some(s)
    ensures s == State(map[1 := Capture(Locked), 2 := Stopper(Looking)], Some(1), Absent, {}, false)
  {
    hide After;
    assert EARLY[..0] == [];
    NoSteps();
    var s1 := OneMore(EARLY, 0, FRESH);
    assert s1.all == map[1 := Capture(Opening)];
    var s2 := OneMore(EARLY, 1, s1);
    assert s2.all == map[1 := Capture(Locked)];
    s := OneMore(EARLY, 2, s2);
    assert s.all == map[1 := Capture(Locked), 2 := Stopper(Looking)];
  }

  lemma OneFrom(s: State, steps: seq<Step>, k: nat, now: State) returns (next: State)
    requires k < |steps| && From(s, steps[..k]) == Some(now) && Enabled(now, steps[k])
    ensures next == Next(now, steps[k]) && From(s, steps[..k + 1]) == Some(next)
  {
    assert steps[..k + 1][..k] == steps[..k];
    next := Next(now, steps[k]);
  }

  lemma NoSteps()
    ensures After([]) == Some(FRESH)
  {
  }

  lemma OneMore(steps: seq<Step>, k: nat, s: State) returns (next: State)
    requires k < |steps| && After(steps[..k]) == Some(s) && Enabled(s, steps[k])
    ensures next == Next(s, steps[k]) && After(steps[..k + 1]) == Some(next)
  {
    assert steps[..k + 1][..k] == steps[..k];
    next := Next(s, steps[k]);
  }
}
