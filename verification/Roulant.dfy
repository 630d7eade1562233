/** The profiler that runs beside a game and is emptied on a freeze
    (control/nel3ab_control/boite_noire/roulant.py). */
module Roulant {
  import opened Common

  datatype Life = Alive | Dead | Reaped

  /** A `perf` that was launched, and the process it follows. */
  datatype Perf = Perf(target: int, life: Life)

  /** What comes of asking a live `perf` to end: it ends within two seconds, it cannot
      be told to, which is only logged, or the wait runs out, which nothing catches. */
  datatype Stop = Exits | CannotTell | TimesOut

  datatype Outcome = Unchanged | Followed | Stopped | Raised

  // ---- the latest of some names ----------------------------------------------

  /** The order of names, as texts compare. */
  predicate Less(a: string, b: string) {
    b != "" && (a == "" || a[0] < b[0] || (a[0] == b[0] && Less(a[1..], b[1..])))
  }

  lemma {:induction false} LessIsTransitive(a: string, b: string, c: string)
    requires Less(a, b) && Less(b, c)
    ensures Less(a, c)
  {
    if a != "" && a[0] == b[0] && b[0] == c[0] {
      LessIsTransitive(a[1..], b[1..], c[1..]);
    }
  }

  /** One text is before another where they first differ, or when it stops first. */
  ghost predicate DifferAt(a: string, b: string, k: nat) {
    && k <= |a| && k < |b| && a[..k] == b[..k]
    && (k < |a| ==> a[k] < b[k])
  }

  lemma {:induction false} LessIff(a: string, b: string)
    ensures Less(a, b) <==> exists k: nat :: DifferAt(a, b, k)
  {
    if b == "" {
    } else if a == "" || a[0] < b[0] {
      assert DifferAt(a, b, 0);
    } else if a[0] == b[0] {
      LessIff(a[1..], b[1..]);
      forall k: nat
        ensures DifferAt(a[1..], b[1..], k) <==> DifferAt(a, b, k + 1)
      {
        assert k < |b| && k < |a| ==> a[..k + 1] == [a[0]] + a[1..][..k] && b[..k + 1] == [b[0]] + b[1..][..k];
        assert k + 1 <= |a| && k + 1 <= |b| ==> a[1..][..k] == a[..k + 1][1..] && b[1..][..k] == b[..k + 1][1..];
      }
      assert !DifferAt(a, b, 0);
      if Less(a, b) {
        var k: nat :| DifferAt(a[1..], b[1..], k);
        assert DifferAt(a, b, k + 1);
      }
      forall k: nat | DifferAt(a, b, k)
        ensures Less(a[1..], b[1..])
      {
        assert DifferAt(a[1..], b[1..], k - 1);
      }
    } else {
      assert forall k: nat :: k > 0 && k <= |a| && k < |b| ==> a[..k][0] != b[..k][0];
    }
  }

  lemma {:induction false} LessIsTotal(a: string, b: string)
    ensures Less(a, b) || a == b || Less(b, a)
  {
    if a != "" && b != "" && a[0] == b[0] {
      LessIsTotal(a[1..], b[1..]);
      assert a == [a[0]] + a[1..] && b == [b[0]] + b[1..];
    }
  }

  method Latest(names: set<string>) returns (last: string)
    requires names != {}
    ensures last in names && forall n :: n in names && n != last ==> Less(n, last)
  {
    last :| last in names;
    var left := names - {last};
    while left != {}
      invariant left <= names && last in names
      invariant forall n :: n in names - left && n != last ==> Less(n, last)
      decreases |left|
    {
      var name :| name in left;
      left := left - {name};
      LessIsTotal(last, name);
      if Less(last, name) {
        forall n | n in names - left && n != name
          ensures Less(n, name)
        {
          if n != last {
            LessIsTransitive(n, last, name);
          }
        }
        last := name;
      }
    }
  }

  // ---- what is running -------------------------------------------------------

  /** Every `perf` that was launched, the one in hand, and the process it follows. */
  datatype Box = Box(perfs: seq<Perf>, current: Option<nat>, followed: Option<int>)

  const EMPTY := Box([], None, None)

  /** The one in hand is the last launched and follows what is said. */
  ghost predicate Sound(b: Box) {
    if b.current.None? then b.followed == None
    else b.current.value == |b.perfs| - 1 && b.followed == Some(b.perfs[b.current.value].target)
  }

  /** The one in hand runs. */
  predicate Running(b: Box) {
    b.current.Some? && b.current.value < |b.perfs| && b.perfs[b.current.value].life == Alive
  }

  /** The one in hand, with another life. */
  function Turned(b: Box, life: Life): seq<Perf>
    requires b.current.Some? && b.current.value < |b.perfs|
  {
    b.perfs[b.current.value := b.perfs[b.current.value].(life := life)]
  }

  /** Looking at the one in hand reaps it when it no longer runs. */
  function Polled(b: Box): Box {
    if b.current.None? || b.current.value >= |b.perfs| || Running(b) then b else b.(perfs := Turned(b, Reaped))
  }

  /** Ending the recording: nothing stays in hand, whatever comes of it. */
  function Ended(b: Box, stop: Stop): Box {
    if Running(b) && stop == Exits then Box(Turned(b, Reaped), None, None) else Box(Polled(b).perfs, None, None)
  }

  predicate Same(b: Box, wanted: Option<int>) {
    wanted.Some? && Running(b) && wanted == b.followed
  }

  /** The stop of a running `perf` is asked for and fails. */
  predicate FailsStop(b: Box, wanted: Option<int>, stop: Stop) {
    Running(b) && !Same(b, wanted) && stop != Exits
  }

  function OutcomeOf(b: Box, wanted: Option<int>, stop: Stop, launches: bool): Outcome {
    if wanted.None? then (if Running(b) && stop == TimesOut then Raised else Stopped)
    else if Same(b, wanted) then Unchanged
    else if (Running(b) && stop == TimesOut) || !launches then Raised else Followed
  }

  /** Following a process: the same one while it runs changes nothing; anything else ends
      the old recording and, unless that or the launch fails, starts one. */
  function Next(b: Box, wanted: Option<int>, stop: Stop, launches: bool): Box {
    match OutcomeOf(b, wanted, stop, launches)
    case Unchanged => b
    case Followed => Box(Ended(b, stop).perfs + [Perf(wanted.value, Alive)], Some(|b.perfs|), wanted)
    case _ => Ended(b, stop)
  }

  /** The one in hand runs and follows that process. */
  ghost predicate Follows(b: Box, wanted: Option<int>) {
    Running(b) && wanted == Some(b.perfs[b.current.value].target)
  }

  /** What following does, by what was in hand: nothing when that process is followed already;
      otherwise it raises if and only if the wait for the running one runs out or there is a new
      one to launch and it does not launch; the new one is added, in hand, only when it does not
      raise; and none but the one in hand is touched. */
  lemma WhatFollowingDoes(b: Box, wanted: Option<int>, stop: Stop, launches: bool)
    requires Sound(b)
    ensures var o, after := OutcomeOf(b, wanted, stop, launches), Next(b, wanted, stop, launches);
            && (o == Unchanged <==> Follows(b, wanted))
            && (o == Unchanged ==> after == b)
            && (o == Raised <==> !Follows(b, wanted)
                                 && ((Running(b) && stop == TimesOut) || (wanted.Some? && !launches)))
            && (o == Stopped ==> wanted.None?) && (o == Followed ==> wanted.Some?)
            && (o == Stopped || o == Raised ==> after.current.None? && |after.perfs| == |b.perfs|)
            && (o == Followed ==> |after.perfs| == |b.perfs| + 1 && after.current == Some(|b.perfs|)
                                  && after.perfs[|b.perfs|] == Perf(wanted.value, Alive))
            && forall k :: 0 <= k < |b.perfs| && b.current != Some(k) ==> after.perfs[k] == b.perfs[k]
  {
  }

  lemma StaysSound(b: Box, wanted: Option<int>, stop: Stop, launches: bool)
    requires Sound(b)
    ensures Sound(Next(b, wanted, stop, launches)) && Sound(Ended(b, stop)) && Sound(Polled(b))
  {
  }

  /** Every `perf` that is not in hand has been reaped. */
  ghost predicate NoStray(b: Box) {
    forall k :: 0 <= k < |b.perfs| && Some(k) != b.current ==> b.perfs[k].life == Reaped
  }

  /** A call leaves no `perf` running on its own if and only if it does not ask a running
      one to stop in vain: one that cannot be told and one that does not end in time are
      both let go of. */
  lemma NoStrayIff(b: Box, wanted: Option<int>, stop: Stop, launches: bool)
    requires Sound(b) && NoStray(b)
    ensures NoStray(Next(b, wanted, stop, launches)) <==> !FailsStop(b, wanted, stop)
  {
    var after := Next(b, wanted, stop, launches);
    if FailsStop(b, wanted, stop) {
      var k := b.current.value;
      assert after.perfs[k].life == Alive && Some(k) != after.current;
    }
  }

  ghost predicate TwoAlive(b: Box) {
    exists i, j :: 0 <= i < j < |b.perfs| && b.perfs[i].life == Alive && b.perfs[j].life == Alive
  }

  /** One is still running once the old recording is ended: the one in hand, or one that an
      earlier call let go of. */
  ghost predicate OneIsLeft(b: Box, stop: Stop) {
    exists k :: 0 <= k < |b.perfs| && b.perfs[k].life == Alive && (Some(k) != b.current || stop != Exits)
  }

  /** A new one is launched: it is asked for, the one in hand is not it, does not fail to end
      in time, and the launch goes through. */
  predicate LaunchesOne(b: Box, wanted: Option<int>, stop: Stop, launches: bool) {
    wanted.Some? && !Same(b, wanted) && launches && !(Running(b) && stop == TimesOut)
  }

  /** Where at most one was running, a call leaves two at once if and only if it launches
      one while one is left. */
  lemma TwoAtOnceIff(b: Box, wanted: Option<int>, stop: Stop, launches: bool)
    requires Sound(b) && !TwoAlive(b)
    ensures TwoAlive(Next(b, wanted, stop, launches))
            <==> LaunchesOne(b, wanted, stop, launches) && OneIsLeft(b, stop)
  {
    var after := Next(b, wanted, stop, launches);
    assert forall k :: 0 <= k < |b.perfs| && after.perfs[k].life == Alive ==> b.perfs[k].life == Alive;
    assert !OneIsLeft(b, stop) && !Same(b, wanted) ==>
        forall k :: 0 <= k < |b.perfs| ==> after.perfs[k].life != Alive;
    if LaunchesOne(b, wanted, stop, launches) && OneIsLeft(b, stop) {
      var k :| 0 <= k < |b.perfs| && b.perfs[k].life == Alive && (Some(k) != b.current || stop != Exits);
      assert after.perfs[k].life == Alive && after.perfs[|b.perfs|].life == Alive;
    }
  }

  /** Both ways to two at once, from any recording that runs: one that cannot be told to
      stop is joined by the next at once; one that does not stop in time, by the one of the
      call after. */
  lemma TwoWays(b: Box, other: int, next: int, stop: Stop)
    requires Sound(b) && Running(b) && b.followed != Some(other)
    ensures TwoAlive(Next(b, Some(other), CannotTell, true))
    ensures TwoAlive(Next(Next(b, Some(other), TimesOut, true), Some(next), stop, true))
  {
    var k, n := b.current.value, |b.perfs|;
    var one := Next(b, Some(other), CannotTell, true);
    assert one.perfs[k].life == Alive && one.perfs[n].life == Alive;
    var two := Next(Next(b, Some(other), TimesOut, true), Some(next), stop, true);
    assert two.perfs[k].life == Alive && two.perfs[n].life == Alive;
  }

  // ---- whole runs ------------------------------------------------------------

  /** What may happen: a call, a look, or a `perf` that ends by itself. */
  datatype Step =
    | Follow(wanted: Option<int>, stop: Stop, launches: bool)
    | End(stop: Stop)
    | Look
    | Dies(k: nat)

  function After(b: Box, step: Step): Box {
    match step
    case Follow(wanted, stop, launches) => Next(b, wanted, stop, launches)
    case End(stop) => Ended(b, stop)
    case Look => Polled(b)
    case Dies(k) =>
      if k < |b.perfs| && b.perfs[k].life == Alive then b.(perfs := b.perfs[k := b.perfs[k].(life := Dead)]) else b
  }

  function Run(steps: seq<Step>): Box {
    if steps == [] then EMPTY else After(Run(steps[..|steps| - 1]), steps[|steps| - 1])
  }

  predicate StopFails(b: Box, step: Step) {
    match step
    case Follow(wanted, stop, _) => FailsStop(b, wanted, stop)
    case End(stop) => FailsStop(b, None, stop)
    case _ => false
  }

  lemma StepKeepsSound(b: Box, step: Step)
    requires Sound(b)
    ensures Sound(After(b, step))
  {
    match step
    case Follow(wanted, stop, launches) => StaysSound(b, wanted, stop, launches);
    case End(stop) => StaysSound(b, None, stop, false);
    case Look => StaysSound(b, None, Exits, false);
    case Dies(_) =>
  }

  lemma {:induction false} RunIsSound(steps: seq<Step>)
    ensures Sound(Run(steps))
  {
    if steps != [] {
      RunIsSound(steps[..|steps| - 1]);
      StepKeepsSound(Run(steps[..|steps| - 1]), steps[|steps| - 1]);
    }
  }

  lemma OneStep(b: Box, step: Step)
    requires Sound(b) && NoStray(b)
    ensures NoStray(After(b, step)) <==> !StopFails(b, step)
  {
    match step
    case Follow(wanted, stop, launches) => NoStrayIff(b, wanted, stop, launches);
    case End(stop) => NoStrayIff(b, None, stop, false);
    case Look =>
    case Dies(_) =>
  }

  lemma RunMore(steps: seq<Step>)
    ensures Run([]) == EMPTY && NoStray(EMPTY)
    ensures steps != [] ==> Run(steps) == After(Run(steps[..|steps| - 1]), steps[|steps| - 1])
  {
  }

  /** In every run, nothing but the one in hand is ever left if and only if no stop of the
      run fails. */
  lemma {:induction false} NeverAStrayIff(steps: seq<Step>)
    ensures (forall n :: 0 <= n <= |steps| ==> NoStray(Run(steps[..n])))
            <==> forall i :: 0 <= i < |steps| ==> !StopFails(Run(steps[..i]), steps[i])
  {
    hide After, StopFails, NoStray, Run;
    RunMore(steps);
    if steps == [] {
      assert steps[..0] == [];
    } else {
      var m := |steps| - 1;
      var early := steps[..m];
      NeverAStrayIff(early);
      RunIsSound(early);
      assert forall n :: 0 <= n <= m ==> early[..n] == steps[..n];
      assert early[..m] == early && steps[..m + 1] == steps;
      if NoStray(Run(early)) {
        OneStep(Run(early), steps[m]);
      }
      assert (forall n :: 0 <= n <= |steps| ==> NoStray(Run(steps[..n])))
        <==> (forall n :: 0 <= n <= m ==> NoStray(Run(early[..n]))) && NoStray(Run(steps));
    }
  }

  /** As long as no stop has failed, at most one runs, and it is the one in hand. */
  lemma AtMostOne(steps: seq<Step>, k: nat)
    requires forall i :: 0 <= i < |steps| ==> !StopFails(Run(steps[..i]), steps[i])
    requires k < |Run(steps).perfs| && Run(steps).perfs[k].life != Reaped
    ensures Run(steps).current == Some(k) && k == |Run(steps).perfs| - 1
    ensures Run(steps).followed == Some(Run(steps).perfs[k].target)
  {
    hide StopFails, Run;
    NeverAStrayIff(steps);
    RunIsSound(steps);
    assert steps[..|steps|] == steps && NoStray(Run(steps));
  }

  // ---- the profiler ----------------------------------------------------------

  class Roulant {
    var perfs: seq<Perf>
    var current: Option<nat>
    var followed: Option<int>
    var dumps: set<string>      // what the folder holds

    ghost function Value(): Box
      reads this
    {
      Box(perfs, current, followed)
    }

    ghost predicate Valid()
      reads this
    {
      Sound(Value())
    }

    constructor ()
      ensures Valid() && Value() == EMPTY
    {
      perfs, current, followed, dumps := [], None, None, {};
    }

    /** Whether the one in hand still runs; looking reaps it when it does not. */
    method Poll() returns (alive: bool)
      requires Valid() && current.Some?
      modifies `perfs
      ensures Valid() && (alive <==> Running(old(Value()))) && Value() == Polled(old(Value()))
    {
      alive := perfs[current.value].life == Alive;
      if !alive {
        perfs := perfs[current.value := perfs[current.value].(life := Reaped)];
      }
    }

    /** Ends the recording. Nothing stays in hand, whatever comes of it; only a wait
        that ran out is an error. */
    method Arreter(stop: Stop) returns (raised: bool)
      requires Valid()
      modifies `perfs, `current, `followed
      ensures Valid() && Value() == Ended(old(Value()), stop)
      ensures raised <==> Running(old(Value())) && stop == TimesOut
    {
      raised := false;
      if current.None? {
        return;
      }
      var k := current.value;
      var alive := Poll();
      current, followed := None, None;
      if alive {
        if stop == Exits {
          perfs := perfs[k := perfs[k].(life := Reaped)];
        }
        raised := stop == TimesOut;
      }
    }

    /** Makes sure a `perf` follows a process; a new one finds its folder cleared. */
    method Suivre(wanted: Option<int>, stop: Stop, launches: bool) returns (outcome: Outcome)
      requires Valid()
      modifies this
      ensures Valid() && Value() == Next(old(Value()), wanted, stop, launches)
      ensures outcome == OutcomeOf(old(Value()), wanted, stop, launches)
      ensures outcome == Followed ==> dumps == {}
      ensures outcome == Unchanged || outcome == Stopped ==> dumps == old(dumps)
    {
      if wanted.None? {
        var raised := Arreter(stop);
        return if raised then Raised else Stopped;
      }
      var alive := false;
      if current.Some? {
        alive := Poll();
      }
      if alive && wanted == followed {
        return Unchanged;
      }
      var raised := Arreter(stop);
      if raised {
        return Raised;
      }
      dumps := {};
      if !launches {
        return Raised;
      }
      perfs := perfs + [Perf(wanted.value, Alive)];
      current, followed := Some(|perfs| - 1), wanted;
      return Followed;
    }

    /** Asks for the buffer and hands over the dump that appears. `there` is what the
        folder holds just before the signal, `looks` what it holds at each look before
        the deadline. What comes out was not there, and is the latest of the first new
        ones. */
    method Vider(there: set<string>, signalled: bool, looks: seq<set<string>>, moved: bool)
      returns (dump: Option<string>)
      requires Valid()
      modifies `perfs, `dumps
      ensures Valid() && Value() == Polled(old(Value()))
      ensures dump.Some? ==>
                && Running(old(Value())) && signalled && moved && dump.value !in there
                && exists i: nat :: FirstNew(looks, there, i) && dump.value in looks[i]
                     && (forall n :: n in looks[i] && n !in there && n != dump.value ==> Less(n, dump.value))
                     && dumps == looks[i] - {dump.value}
      ensures dump.None? ==>
                !Running(old(Value())) || !signalled || !moved
                || forall i :: 0 <= i < |looks| ==> looks[i] <= there
      ensures !Running(old(Value())) ==> dumps == old(dumps)
      ensures dump.None? && Running(old(Value())) ==>
                || (dumps == there && (!signalled || looks == []))
                || (signalled && exists i: nat :: FirstNew(looks, there, i) && dumps == looks[i])
                || (signalled && looks != [] && dumps == looks[|looks| - 1]
                    && forall i :: 0 <= i < |looks| ==> looks[i] <= there)
    {
      if current.None? {
        return None;
      }
      var alive := Poll();
      if !alive {
        return None;
      }
      dumps := there;
      if !signalled {
        return None;
      }
      var i := 0;
      while i < |looks|
        invariant 0 <= i <= |looks| && perfs == old(perfs)
        invariant forall k :: 0 <= k < i ==> looks[k] <= there
        invariant dumps == if i == 0 then there else looks[i - 1]
      {
        var found := looks[i] - there;
        dumps := looks[i];
        if found != {} {
          assert FirstNew(looks, there, i);
          var last := Latest(found);
          if !moved {
            return None;
          }
          dumps := dumps - {last};
          return Some(last);
        }
        assert forall n :: n in looks[i] ==> n in found || n in there;
        i := i + 1;
      }
      return None;
    }
  }

  ghost predicate FirstNew(looks: seq<set<string>>, there: set<string>, i: nat) {
    i < |looks| && !(looks[i] <= there) && forall k :: 0 <= k < i ==> looks[k] <= there
  }
}
