/** The dump of the rolling profiler, which runs on the thread of the capture while the loop
    of the service goes on following the game (control/nel3ab_control/boite_noire/roulant.py,
    vider beside suivre and arreter). Each step is one use of what they share. */
module Vidage {
  import opened Common
  import R = Roulant

  /** Where the loop is in a call: it has let go of the old recording, and may have a process
      to follow next; or the old one is ended, and the launch is to come. */
  datatype Loop = Idle | Ending(left: Option<nat>, wanted: Option<int>) | Starting(next: int)

  /** Where the dump is: it reads what is in hand three times, to see that there is
      something, to see that it runs, and to signal it. Nothing catches the error of the last
      two when they find nothing. */
  datatype Dump = Waiting | Checked | Alive(k: nat) | Sent(k: nat, to: nat) | NoDump | Crashed

  datatype Shared = Shared(box: R.Box, loop: Loop, dump: Dump)

  datatype Step =
    | Begin(wanted: Option<int>)
    | Finish(stop: R.Stop)
    | Launch(launches: bool)
    | Dies(k: nat)
    | Read

  /** A call of the loop lets go of what is in hand, unless it is to follow the same process. */
  predicate LetsGo(s: Shared, step: Step) {
    step.Begin? && s.loop.Idle? && !R.Same(s.box, step.wanted)
  }

  /** Ending the old recording: it is reaped if it had ended, or ends in time. */
  function EndOld(perfs: seq<R.Perf>, left: Option<nat>, stop: R.Stop): seq<R.Perf> {
    if left.Some? && left.value < |perfs| && (perfs[left.value].life != R.Alive || stop == R.Exits)
    then perfs[left.value := perfs[left.value].(life := R.Reaped)] else perfs
  }

  predicate StillAlive(perfs: seq<R.Perf>, left: Option<nat>) {
    left.Some? && left.value < |perfs| && perfs[left.value].life == R.Alive
  }

  predicate PutsInHand(s: Shared, step: Step) {
    step.Launch? && step.launches && s.loop.Starting?
  }

  function After(s: Shared, step: Step): Shared {
    match step
    case Begin(wanted) =>
      if LetsGo(s, step) then s.(box := R.Box(s.box.perfs, None, None), loop := Ending(s.box.current, wanted)) else s
    case Finish(stop) =>
      if !s.loop.Ending? then s
      else
        var raises := StillAlive(s.box.perfs, s.loop.left) && stop == R.TimesOut;
        Shared(s.box.(perfs := EndOld(s.box.perfs, s.loop.left, stop)),
               if raises || s.loop.wanted.None? then Idle else Starting(s.loop.wanted.value), s.dump)
    case Launch(launches) =>
      if !s.loop.Starting? then s
      else if !launches then s.(loop := Idle)
      else
        var perfs := s.box.perfs + [R.Perf(s.loop.next, R.Alive)];
        Shared(R.Box(perfs, Some(|perfs| - 1), Some(s.loop.next)), Idle, s.dump)
    case Dies(k) => s.(box := R.After(s.box, R.Dies(k)))
    case Read => Reads(s)
  }

  /** One more use of what is in hand by the dump. */
  function Reads(s: Shared): Shared {
    match s.dump
    case Waiting => s.(dump := if s.box.current.None? then NoDump else Checked)
    case Checked =>
      if s.box.current.None? then s.(dump := Crashed)
      else if R.Running(s.box) then s.(dump := Alive(s.box.current.value))
      else Shared(R.Polled(s.box), s.loop, NoDump)
    case Alive(k) => s.(dump := if s.box.current.None? then Crashed else Sent(k, s.box.current.value))
    case _ => s
  }

  function Run(s: Shared, steps: seq<Step>): Shared {
    if steps == [] then s else After(Run(s, steps[..|steps| - 1]), steps[|steps| - 1])
  }

  // ---- each thread alone -----------------------------------------------------

  /** A call of the loop that nothing comes between is the call of the sequential model. */
  lemma TheLoopAlone(s: Shared, wanted: Option<int>, stop: R.Stop, launches: bool)
    requires R.Sound(s.box) && s.loop.Idle?
    ensures Run(s, [Begin(wanted), Finish(stop), Launch(launches)])
            == Shared(R.Next(s.box, wanted, stop, launches), Idle, s.dump)
  {
    var steps := [Begin(wanted), Finish(stop), Launch(launches)];
    assert steps[..2] == [Begin(wanted), Finish(stop)] && steps[..2][..1] == [Begin(wanted)];
    assert [Begin(wanted)][..0] == [];
    assert Run(s, steps[..2][..1]) == After(s, Begin(wanted));
    assert Run(s, steps[..2]) == After(After(s, Begin(wanted)), Finish(stop));
    assert Run(s, steps) == After(After(After(s, Begin(wanted)), Finish(stop)), Launch(launches));
  }

  /** And so is a dump: it signals the recording that runs, or gives nothing. */
  lemma TheDumpAlone(s: Shared)
    requires s.dump == Waiting
    ensures var after := Run(s, [Read, Read, Read]);
            && after.box == R.Polled(s.box)
            && after.dump == if R.Running(s.box) then Sent(s.box.current.value, s.box.current.value) else NoDump
  {
    var steps := [Read, Read, Read];
    assert steps[..2] == [Read, Read] && steps[..2][..1] == [Read] && [Read][..0] == [];
    assert Run(s, steps[..2][..1]) == Reads(s);
    assert Run(s, steps[..2]) == Reads(Reads(s));
    assert Run(s, steps) == Reads(Reads(Reads(s)));
  }

  // ---- the two together ------------------------------------------------------

  ghost predicate NoReads(steps: seq<Step>) {
    forall i :: 0 <= i < |steps| ==> !steps[i].Read?
  }

  predicate LetsGoAt(s: Shared, steps: seq<Step>, i: nat)
    requires i < |steps|
  {
    LetsGo(Run(s, steps[..i]), steps[i])
  }

  predicate PutsInHandAt(s: Shared, steps: seq<Step>, i: nat)
    requires i < |steps|
  {
    PutsInHand(Run(s, steps[..i]), steps[i])
  }

  /** The loop has let go of the recording and put none in hand since. */
  ghost predicate LeftWithNone(s: Shared, steps: seq<Step>) {
    exists i :: 0 <= i < |steps| && LetsGoAt(s, steps, i)
                && forall j :: i < j < |steps| ==> !PutsInHandAt(s, steps, j)
  }

  lemma OneMove(s: Shared, step: Step)
    requires !step.Read?
    ensures After(s, step).dump == s.dump
    ensures LetsGo(s, step) ==> After(s, step).box.current.None?
    ensures PutsInHand(s, step) ==> After(s, step).box.current == Some(|s.box.perfs|)
    ensures !LetsGo(s, step) && !PutsInHand(s, step) ==> After(s, step).box.current == s.box.current
    ensures |After(s, step).box.perfs| >= |s.box.perfs|
  {
  }

  lemma {:induction false} NothingInHandIff(s: Shared, steps: seq<Step>)
    requires s.box.current.Some? && NoReads(steps)
    ensures Run(s, steps).dump == s.dump
    ensures Run(s, steps).box.current.None? <==> LeftWithNone(s, steps)
  {
    hide After, LetsGo, PutsInHand;
    if steps != [] {
      var n := |steps| - 1;
      var early := steps[..n];
      NothingInHandIff(s, early);
      OneMove(Run(s, early), steps[n]);
      assert forall i :: 0 <= i < n ==> early[..i] == steps[..i];
      assert LeftWithNone(s, steps)
        <==> LetsGoAt(s, steps, n) || (LeftWithNone(s, early) && !PutsInHandAt(s, steps, n)) by {
        OneMoreMove(s, steps);
      }
      BothAtOnce(Run(s, early), steps[n]);
    }
  }

  lemma BothAtOnce(s: Shared, step: Step)
    ensures !(LetsGo(s, step) && PutsInHand(s, step))
  {
  }

  lemma OneMoreMove(s: Shared, steps: seq<Step>)
    requires steps != []
    ensures var n := |steps| - 1;
            LeftWithNone(s, steps)
            <==> LetsGoAt(s, steps, n) || (LeftWithNone(s, steps[..n]) && !PutsInHandAt(s, steps, n))
  {
    hide LetsGo, PutsInHand, Run;
    var n := |steps| - 1;
    var early := steps[..n];
    assert forall i :: 0 <= i < n ==> early[..i] == steps[..i];
    forall i | 0 <= i < n
      ensures LetsGoAt(s, early, i) == LetsGoAt(s, steps, i) && PutsInHandAt(s, early, i) == PutsInHandAt(s, steps, i)
    {
    }
    if LeftWithNone(s, early) && !PutsInHandAt(s, steps, n) {
      var i :| 0 <= i < n && LetsGoAt(s, early, i) && forall j :: i < j < n ==> !PutsInHandAt(s, early, j);
      assert LetsGoAt(s, steps, i);
    }
    if LeftWithNone(s, steps) && !LetsGoAt(s, steps, n) {
      var i :| 0 <= i <= n && LetsGoAt(s, steps, i) && forall j :: i < j <= n ==> !PutsInHandAt(s, steps, j);
      assert LetsGoAt(s, early, i);
    }
  }

  /** Between two reads of the dump the loop may do any number of things. The second read
      ends the dump, and the capture with it, in an error if and only if the loop has let go
      of the recording since the first and put none in hand. */
  lemma TheDumpCrashesIff(s: Shared, steps: seq<Step>)
    requires (s.dump.Checked? || s.dump.Alive?) && s.box.current.Some? && NoReads(steps)
    ensures Run(s, steps + [Read]).dump == Crashed <==> LeftWithNone(s, steps)
  {
    NothingInHandIff(s, steps);
    assert (steps + [Read])[..|steps|] == steps;
  }

  /** The loop has put a recording in hand. */
  ghost predicate Launched(s: Shared, steps: seq<Step>) {
    exists i :: 0 <= i < |steps| && PutsInHandAt(s, steps, i)
  }

  lemma OneMoreLaunch(s: Shared, steps: seq<Step>)
    requires steps != []
    ensures var n := |steps| - 1;
            Launched(s, steps) <==> Launched(s, steps[..n]) || PutsInHandAt(s, steps, n)
  {
    hide PutsInHand, Run;
    var n := |steps| - 1;
    var early := steps[..n];
    forall i | 0 <= i < n
      ensures PutsInHandAt(s, early, i) == PutsInHandAt(s, steps, i)
    {
      assert early[..i] == steps[..i];
    }
  }

  lemma {:induction false} NewOneIsAnother(s: Shared, steps: seq<Step>)
    requires R.Sound(s.box) && s.box.current.Some? && NoReads(steps)
    ensures |Run(s, steps).box.perfs| >= |s.box.perfs|
    ensures var now := Run(s, steps).box.current;
            now.Some? ==> if Launched(s, steps) then now.value >= |s.box.perfs| else now == s.box.current
  {
    hide After, LetsGo, PutsInHand, R.Sound, Launched;
    if steps == [] {
      NothingLaunched(s);
    } else {
      var n := |steps| - 1;
      var early := steps[..n];
      NewOneIsAnother(s, early);
      OneMoreLaunch(s, steps);
      OneMove(Run(s, early), steps[n]);
      BothAtOnce(Run(s, early), steps[n]);
    }
  }

  lemma NothingLaunched(s: Shared)
    ensures !Launched(s, [])
  {
  }

  /** When it does not end so, the recording that is signalled is another than the one that
      was seen to run if and only if the loop has launched one in between. */
  lemma AnotherIsSignalledIff(s: Shared, steps: seq<Step>)
    requires R.Sound(s.box) && s.box.current.Some? && s.dump == Alive(s.box.current.value) && NoReads(steps)
    requires !LeftWithNone(s, steps)
    ensures var after := Run(s, steps + [Read]).dump;
            && after.Sent? && after.k == s.box.current.value
            && (after.to != after.k <==> Launched(s, steps))
  {
    NothingInHandIff(s, steps);
    NewOneIsAnother(s, steps);
    assert (steps + [Read])[..|steps|] == steps;
  }

  /** A game that stops just after the dump has seen its recording: from any recording that
      runs, the dump ends in an error. */
  lemma AGameStopsDuringADump(s: Shared, stop: R.Stop)
    requires s.loop.Idle? && s.dump == Waiting && R.Running(s.box)
    ensures Run(s, [Read, Begin(None), Finish(stop), Read]).dump == Crashed
  {
    var steps := [Read, Begin(None), Finish(stop), Read];
    assert steps[..3] == [Read, Begin(None), Finish(stop)] && steps[..3][..2] == [Read, Begin(None)];
    assert steps[..3][..2][..1] == [Read] && [Read][..0] == [];
    assert Run(s, steps[..3][..2][..1]) == Reads(s);
    assert Run(s, steps[..3][..2]) == After(Reads(s), Begin(None));
    assert Run(s, steps[..3]) == After(After(Reads(s), Begin(None)), Finish(stop));
    assert Run(s, steps) == Reads(Run(s, steps[..3]));
  }
}
