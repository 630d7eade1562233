/** Every run of the black box: what holds after any number of turns, whatever
    the outside does in them. */
module ServiceRuns {
  import opened Common
  import opened Service
  import D = Declencheur
  import R = Roulant

  /** What may happen to the rolling profilers between two turns: one ends by itself, or the
      capture in flight looks at the one in hand. */
  datatype Event = Died(k: nat) | Looked

  function StepOf(event: Event): R.Step {
    match event
    case Died(k) => R.Dies(k)
    case Looked => R.Look
  }

  function Meanwhile(b: R.Box, events: seq<Event>): R.Box {
    if events == [] then b
    else R.After(Meanwhile(b, events[..|events| - 1]), StepOf(events[|events| - 1]))
  }

  /** One turn with the drops its trigger gave, and what happened before it. */
  datatype Step = Step(before: seq<Event>, turn: Turn, drops: seq<D.Drop>)

  /** The box when a turn begins. */
  function Begun(b: Box, step: Step): Box {
    b.(rolling := Meanwhile(b.rolling, step.before))
  }

  function Run(cfg: Config, start: real, steps: seq<Step>): Box {
    if steps == [] then Started(start)
    else
      var last := steps[|steps| - 1];
      Toured(cfg, Begun(Run(cfg, start, steps[..|steps| - 1]), last), last.turn, last.drops)
  }

  /** The box when the turn of the i-th step begins. */
  function At(cfg: Config, start: real, steps: seq<Step>, i: nat): Box
    requires i < |steps|
  {
    Begun(Run(cfg, start, steps[..i]), steps[i])
  }

  /** The drops of all the turns that got as far as their captures. */
  function AllDrops(cfg: Config, start: real, steps: seq<Step>): seq<D.Drop> {
    if steps == [] then []
    else
      var i := |steps| - 1;
      AllDrops(cfg, start, steps[..i])
      + if Captures(cfg, At(cfg, start, steps, i), steps[i].turn) then steps[i].drops else []
  }

  // ---- at most one capture ---------------------------------------------------

  /** Every capture but the last submitted is finished. */
  ghost predicate OneInFlight(b: Box) {
    && (b.current == if b.captures == [] then None else Some(|b.captures| - 1))
    && (forall i :: 0 <= i < |b.captures| - 1 ==> i in b.finished)
    && (forall i :: i in b.finished ==> i < |b.captures|)
  }

  // ---- every drop accounted for ----------------------------------------------

  function DropsOf(ledger: seq<Fate>): seq<D.Drop> {
    if ledger == [] then [] else DropsOf(ledger[..|ledger| - 1]) + [ledger[|ledger| - 1].drop]
  }

  /** The drops that ended, and the one that waits. */
  function Accounted(b: Box): multiset<D.Drop> {
    multiset(DropsOf(b.ledger)) + if b.waiting.Some? then multiset{b.waiting.value.drop} else multiset{}
  }

  // ---- how long a drop may wait ----------------------------------------------

  /** A submitted drop waited at most the limit, an abandoned one longer. */
  ghost predicate WithinTheLimit(ledger: seq<Fate>) {
    forall i :: 0 <= i < |ledger| ==>
      && (ledger[i].Submitted? ==> ledger[i].at - ledger[i].asked <= ATTENTE_MAX)
      && (ledger[i].TooLate? ==> ledger[i].at - ledger[i].asked > ATTENTE_MAX)
  }

  // ---- what the executor and the log are told --------------------------------

  /** The drops given to the executor, in order. */
  function CapturedDrops(captures: seq<Capture>): seq<D.Drop> {
    if captures == [] then []
    else
      var last := captures[|captures| - 1];
      CapturedDrops(captures[..|captures| - 1]) + if last.drop.Some? then [last.drop.value] else []
  }

  function SubmittedDrops(ledger: seq<Fate>): seq<D.Drop> {
    if ledger == [] then []
    else
      var last := ledger[|ledger| - 1];
      SubmittedDrops(ledger[..|ledger| - 1]) + if last.Submitted? then [last.drop] else []
  }

  datatype Ending = Ending(drop: D.Drop, at: Instant, how: How)

  datatype How = AsCapture | WithNoEngine | TooOld

  /** The ends of drops that the log tells. */
  function Told(journal: seq<Entry>): seq<Ending> {
    if journal == [] then []
    else Told(journal[..|journal| - 1]) + TellsOf(journal[|journal| - 1])
  }

  function TellsOf(e: Entry): seq<Ending> {
    match e
    case Captured(when, _, _, Some(d)) => [Ending(d, when, AsCapture)]
    case Impossible(when, _, Some(d)) => [Ending(d, when, WithNoEngine)]
    case Abandoned(when, d) => [Ending(d, when, TooOld)]
    case _ => []
  }

  /** The ends of drops, replacements left out. */
  function Ends(ledger: seq<Fate>): seq<Ending> {
    if ledger == [] then []
    else Ends(ledger[..|ledger| - 1]) + EndsOf(ledger[|ledger| - 1])
  }

  function EndsOf(f: Fate): seq<Ending> {
    match f
    case Submitted(d, _, at) => [Ending(d, at, AsCapture)]
    case WithoutEngine(d, _, at) => [Ending(d, at, WithNoEngine)]
    case TooLate(d, _, at) => [Ending(d, at, TooOld)]
    case Replaced(_, _, _) => []
  }

  /** The executor was given exactly the submitted drops, in order, and the log
      tells every end but a replacement. */
  ghost predicate Truthful(b: Box) {
    CapturedDrops(b.captures) == SubmittedDrops(b.ledger) && Told(b.journal) == Ends(b.ledger)
  }

  function One(drop: Option<D.Drop>): multiset<D.Drop> {
    if drop.Some? then multiset{drop.value} else multiset{}
  }

  lemma CaptureOne(captures: seq<Capture>, c: Capture)
    ensures CapturedDrops(captures + [c]) == CapturedDrops(captures) + if c.drop.Some? then [c.drop.value] else []
    ensures c.drop.None? ==> CapturedDrops(captures + [c]) == CapturedDrops(captures)
  {
    assert (captures + [c])[..|captures|] == captures;
  }

  lemma EndOne(ledger: seq<Fate>, f: Fate)
    ensures SubmittedDrops(ledger + [f]) == SubmittedDrops(ledger) + if f.Submitted? then [f.drop] else []
    ensures !f.Submitted? ==> SubmittedDrops(ledger + [f]) == SubmittedDrops(ledger)
    ensures Ends(ledger + [f]) == Ends(ledger) + EndsOf(f)
    ensures EndsOf(f) == [] ==> Ends(ledger + [f]) == Ends(ledger)
    ensures multiset(DropsOf(ledger + [f])) == multiset(DropsOf(ledger)) + multiset{f.drop}
  {
    assert (ledger + [f])[..|ledger|] == ledger;
  }

  lemma TellOne(journal: seq<Entry>, e: Entry)
    ensures Told(journal + [e]) == Told(journal) + TellsOf(e)
    ensures TellsOf(e) == [] ==> Told(journal + [e]) == Told(journal)
  {
    assert (journal + [e])[..|journal|] == journal;
  }

  // ---- the periodic captures -------------------------------------------------

  /** The monotonic clock at the periodic captures. */
  function PeriodicTimes(captures: seq<Capture>): seq<real> {
    if captures == [] then []
    else
      var last := captures[|captures| - 1];
      PeriodicTimes(captures[..|captures| - 1]) + if last.reason == Periodique then [last.t] else []
  }

  /** The periodic capture before the i-th, or the start. */
  function Before(start: real, times: seq<real>, i: nat): real
    requires i < |times|
  {
    if i == 0 then start else times[i - 1]
  }

  /** Periodic captures are a period apart and a period after the start, and the
      clock of the last one is kept. */
  ghost predicate Spaced(cfg: Config, start: real, times: seq<real>, last: real) {
    && last == (if times == [] then start else times[|times| - 1])
    && (forall i :: 0 <= i < |times| ==> times[i] - Before(start, times, i) >= cfg.profilePeriod)
  }

  ghost predicate ReasonsMatch(captures: seq<Capture>, rolling: bool) {
    forall i :: 0 <= i < |captures| ==>
      && (captures[i].reason == Chute <==> captures[i].drop.Some?)
      && (captures[i].withBuffer <==> captures[i].reason == Chute && rolling)
      && captures[i].engine.threads > 0
  }

  // ---- the invariant, step by step -------------------------------------------

  ghost predicate Sound(cfg: Config, b: Box) {
    && OneInFlight(b)
    && WithinTheLimit(b.ledger)
    && Truthful(b)
    && ReasonsMatch(b.captures, cfg.rolling)
    && (b.waiting.Some? ==> b.waiting.value.engine.threads > 0)
  }

  lemma AskedKeeps(cfg: Config, b: Box, turn: Turn)
    requires Sound(cfg, b)
    ensures Sound(cfg, Asked(b, turn)) && Accounted(Asked(b, turn)) == Accounted(b)
  {
    hide CapturedDrops, SubmittedDrops, Told, Ends, WithinTheLimit, ReasonsMatch, DropsOf;
  }

  lemma RefusedKeeps(cfg: Config, b: Box, turn: Turn, drop: Option<D.Drop>, asked: Instant)
    requires Sound(cfg, b)
    ensures Sound(cfg, Refused(b, turn, drop, asked))
    ensures Accounted(Refused(b, turn, drop, asked)) == Accounted(b) + One(drop)
  {
    hide CapturedDrops, SubmittedDrops, Told, Ends, DropsOf;
    match drop
    case None =>
      TellOne(b.journal, Impossible(turn.now, Periodique, None));
    case Some(d) =>
      TellOne(b.journal, Impossible(turn.now, Chute, drop));
      EndOne(b.ledger, WithoutEngine(d, asked, turn.now));
  }

  lemma PutOffKeeps(cfg: Config, b: Box, turn: Turn, engine: Engine, d: D.Drop)
    requires Sound(cfg, b) && engine.threads > 0
    ensures Sound(cfg, PutOff(b, turn, engine, d))
    ensures Accounted(PutOff(b, turn, engine, d)) == Accounted(b) + multiset{d}
  {
    hide CapturedDrops, SubmittedDrops, Told, Ends, DropsOf;
    TellOne(b.journal, Deferred(turn.now, d));
    if b.waiting.Some? {
      EndOne(b.ledger, Replaced(b.waiting.value.drop, b.waiting.value.since, turn.now));
    } else {
      assert b.ledger + [] == b.ledger;
    }
  }

  lemma SkipKeeps(cfg: Config, b: Box, turn: Turn)
    requires Sound(cfg, b)
    ensures Sound(cfg, Skip(b, turn)) && Accounted(Skip(b, turn)) == Accounted(b)
  {
    hide CapturedDrops, SubmittedDrops, Told, Ends, DropsOf;
    TellOne(b.journal, Skipped(turn.now, Periodique));
  }

  lemma SubmitKeeps(cfg: Config, b: Box, turn: Turn, engine: Engine, drop: Option<D.Drop>, asked: Instant)
    requires Sound(cfg, b) && !Busy(b) && engine.threads > 0
    requires drop.Some? ==> turn.now - asked <= ATTENTE_MAX
    ensures Sound(cfg, Submit(cfg, b, turn, engine, drop, asked))
    ensures Accounted(Submit(cfg, b, turn, engine, drop, asked)) == Accounted(b) + One(drop)
  {
    hide CapturedDrops, SubmittedDrops, Told, Ends, DropsOf;
    var reason := if drop.Some? then Chute else Periodique;
    TellOne(b.journal, Captured(turn.now, reason, engine.room, drop));
    CaptureOne(b.captures, Capture(reason, engine, turn.now, turn.t, drop, drop.Some? && cfg.rolling));
    if drop.Some? {
      EndOne(b.ledger, Submitted(drop.value, asked, turn.now));
    } else {
      assert b.ledger + [] == b.ledger;
    }
  }

  lemma GiveUpKeeps(cfg: Config, b: Box, turn: Turn, w: Waiting)
    requires Sound(cfg, b) && turn.now - w.since > ATTENTE_MAX
    ensures Sound(cfg, GiveUp(b, turn, w))
    ensures Accounted(GiveUp(b, turn, w)) == Accounted(b) + multiset{w.drop}
  {
    hide CapturedDrops, SubmittedDrops, Told, Ends, DropsOf;
    TellOne(b.journal, Abandoned(turn.now, w.drop));
    EndOne(b.ledger, TooLate(w.drop, w.since, turn.now));
  }

  /** Asking for a capture keeps the invariant and accounts for the drop. */
  lemma RequestedKeeps(cfg: Config, b: Box, turn: Turn, engine: Option<Engine>, drop: Option<D.Drop>, asked: Instant)
    requires Sound(cfg, b)
    requires drop.Some? ==> turn.now - asked <= ATTENTE_MAX
    requires engine.Some? ==> engine.value.threads > 0
    ensures Sound(cfg, Requested(cfg, b, turn, engine, drop, asked).0)
    ensures Accounted(Requested(cfg, b, turn, engine, drop, asked).0) == Accounted(b) + One(drop)
  {
    hide Sound, Accounted, Asked, Refused, PutOff, Skip, Submit;
    if engine.None? {
      RefusedKeeps(cfg, b, turn, drop, asked);
    } else {
      AskedKeeps(cfg, b, turn);
      var b := Asked(b, turn);
      if !Busy(b) {
        SubmitKeeps(cfg, b, turn, engine.value, drop, asked);
      } else if drop.Some? {
        PutOffKeeps(cfg, b, turn, engine.value, drop.value);
      } else {
        SkipKeeps(cfg, b, turn);
      }
    }
  }

  /** Taking up the waiting drop keeps the invariant and every account. */
  lemma ResumedKeeps(cfg: Config, b: Box, turn: Turn)
    requires Sound(cfg, b)
    ensures Sound(cfg, Resumed(cfg, b, turn)) && Accounted(Resumed(cfg, b, turn)) == Accounted(b)
  {
    hide Sound, Accounted, Asked, Busy, Requested, GiveUp;
    AskedKeeps(cfg, b, turn);
    AskedLeavesWaiting(b, turn);
    if b.waiting.Some? && !Busy(Asked(b, turn)) {
      var w, free := b.waiting.value, Asked(b, turn).(waiting := None);
      FreeingKeeps(cfg, Asked(b, turn));
      if turn.now - w.since > ATTENTE_MAX {
        GiveUpKeeps(cfg, free, turn, w);
      } else {
        RequestedKeeps(cfg, free, turn, Some(w.engine), Some(w.drop), w.since);
      }
    }
  }

  lemma AskedLeavesWaiting(b: Box, turn: Turn)
    ensures Asked(b, turn).waiting == b.waiting
  {
  }

  lemma FreeingKeeps(cfg: Config, b: Box)
    requires Sound(cfg, b) && b.waiting.Some?
    ensures Sound(cfg, b.(waiting := None)) && b.waiting.value.engine.threads > 0
    ensures Accounted(b) == Accounted(b.(waiting := None)) + multiset{b.waiting.value.drop}
  {
    hide CapturedDrops, SubmittedDrops, Told, Ends, WithinTheLimit, ReasonsMatch;
  }

  lemma {:induction false} AllRequestedKeeps(cfg: Config, b: Box, turn: Turn, drops: seq<D.Drop>)
    requires Sound(cfg, b)
    ensures Sound(cfg, AllRequested(cfg, b, turn, drops))
    ensures Accounted(AllRequested(cfg, b, turn, drops)) == Accounted(b) + multiset(drops)
  {
    hide Sound, Accounted, Requested;
    if drops != [] {
      var earlier, d := drops[..|drops| - 1], drops[|drops| - 1];
      AllRequestedKeeps(cfg, b, turn, earlier);
      assert drops == earlier + [d];
      RequestedKeeps(cfg, AllRequested(cfg, b, turn, earlier), turn, EngineOf(d.room, turn.engines), Some(d), turn.now);
    }
  }

  lemma PeriodicKeeps(cfg: Config, b: Box, turn: Turn)
    requires Sound(cfg, b)
    ensures Sound(cfg, Periodic(cfg, b, turn)) && Accounted(Periodic(cfg, b, turn)) == Accounted(b)
  {
    hide Sound, Accounted, Requested;
    var engine := EngineOf(None, turn.engines);
    RequestedKeeps(cfg, b, turn, engine, None, turn.now);
    NotingTheProfileKeeps(cfg, Requested(cfg, b, turn, engine, None, turn.now).0, turn.t);
  }

  lemma NotingTheProfileKeeps(cfg: Config, b: Box, t: real)
    requires Sound(cfg, b)
    ensures Sound(cfg, b.(lastProfile := t)) && Accounted(b.(lastProfile := t)) == Accounted(b)
  {
    hide CapturedDrops, SubmittedDrops, Told, Ends, WithinTheLimit, ReasonsMatch;
  }

  /** One turn keeps the invariant and accounts for its drops. */
  lemma TouredKeeps(cfg: Config, b: Box, turn: Turn, drops: seq<D.Drop>)
    requires Sound(cfg, b)
    ensures Sound(cfg, Toured(cfg, b, turn, drops))
    ensures Accounted(Toured(cfg, b, turn, drops))
         == Accounted(b) + if Captures(cfg, b, turn) then multiset(drops) else multiset{}
  {
    hide Sound, Accounted, Opened, Seen, Resumed, AllRequested, Periodic;
    ReadingKeeps(cfg, b, turn);
    if turn.failing != TheReading {
      var b1 := Seen(cfg, b, turn);
      var b2 := Resumed(cfg, b1, turn);
      ResumedKeeps(cfg, b1, turn);
      AllRequestedKeeps(cfg, b2, turn, drops);
      PeriodicKeeps(cfg, AllRequested(cfg, b2, turn, drops), turn);
      SweepingKeeps(cfg, Periodic(cfg, AllRequested(cfg, b2, turn, drops), turn), turn);
    }
  }

  lemma ReadingKeeps(cfg: Config, b: Box, turn: Turn)
    requires Sound(cfg, b)
    ensures Sound(cfg, Opened(cfg, b, turn)) && Accounted(Opened(cfg, b, turn)) == Accounted(b)
    ensures Sound(cfg, Seen(cfg, b, turn)) && Accounted(Seen(cfg, b, turn)) == Accounted(b)
  {
    hide CapturedDrops, SubmittedDrops, Told, Ends, WithinTheLimit, ReasonsMatch, Rolled;
    TellOne(b.journal, Reading(turn.now, WithAllocator(cfg, b, turn)));
  }

  lemma SweepingKeeps(cfg: Config, b: Box, turn: Turn)
    requires Sound(cfg, b)
    ensures Sound(cfg, b.(sweptDay := Some(turn.day))) && Accounted(b.(sweptDay := Some(turn.day))) == Accounted(b)
  {
    hide CapturedDrops, SubmittedDrops, Told, Ends, WithinTheLimit, ReasonsMatch;
  }

  // ---- the main results ------------------------------------------------------

  /** After any run: every drop the trigger gave is in exactly one place, ended in
      the ledger (submitted, without an engine, too late, or replaced) or waiting
      in the one slot; and the invariant holds. */
  lemma {:induction false} EveryDropIsAccountedFor(cfg: Config, start: real, steps: seq<Step>)
    ensures Sound(cfg, Run(cfg, start, steps))
    ensures Accounted(Run(cfg, start, steps)) == multiset(AllDrops(cfg, start, steps))
  {
    hide Sound, Accounted, Toured, Captures, Begun;
    if steps == [] {
      NothingYet(cfg, start);
    } else {
      var last := steps[|steps| - 1];
      var before := Run(cfg, start, steps[..|steps| - 1]);
      EveryDropIsAccountedFor(cfg, start, steps[..|steps| - 1]);
      RollingIsApart(cfg, before, last);
      TouredKeeps(cfg, Begun(before, last), last.turn, last.drops);
    }
  }

  lemma NothingYet(cfg: Config, start: real)
    ensures Sound(cfg, Started(start)) && Accounted(Started(start)) == multiset([])
  {
  }

  lemma RollingIsApart(cfg: Config, b: Box, step: Step)
    requires Sound(cfg, b)
    ensures Sound(cfg, Begun(b, step)) && Accounted(Begun(b, step)) == Accounted(b)
    ensures Begun(b, step).captures == b.captures && Begun(b, step).lastProfile == b.lastProfile
    ensures Begun(b, step).sweptDay == b.sweptDay
  {
    hide CapturedDrops, SubmittedDrops, Told, Ends, WithinTheLimit, ReasonsMatch;
  }

  /** After any run at most one capture is still running. */
  lemma AtMostOneCapture(cfg: Config, start: real, steps: seq<Step>, i: nat, j: nat)
    requires var b := Run(cfg, start, steps);
             i < |b.captures| && j < |b.captures| && i !in b.finished && j !in b.finished
    ensures i == j
  {
    hide Run;
    EveryDropIsAccountedFor(cfg, start, steps);
  }

  /** What the invariant says of the end of a drop: a submitted drop waited at
      most a minute, an abandoned one more; the executor was given exactly the
      submitted drops, in order; the log tells every end but a replacement. */
  lemma HowDropsEnd(cfg: Config, start: real, steps: seq<Step>)
    ensures var b := Run(cfg, start, steps);
            && (forall f :: f in b.ledger && f.Submitted? ==> f.at - f.asked <= ATTENTE_MAX)
            && (forall f :: f in b.ledger && f.TooLate? ==> f.at - f.asked > ATTENTE_MAX)
            && CapturedDrops(b.captures) == SubmittedDrops(b.ledger)
            && Told(b.journal) == Ends(b.ledger)
            && (forall c :: c in b.captures ==>
                  c.engine.threads > 0 && (c.withBuffer <==> c.drop.Some? && cfg.rolling))
  {
    hide Run, CapturedDrops, SubmittedDrops, Told, Ends;
    EveryDropIsAccountedFor(cfg, start, steps);
  }

  // ---- periodic captures -----------------------------------------------------

  /** A request for a drop leaves the periodic captures alone. */
  lemma DropsAreNotPeriodic(cfg: Config, b: Box, turn: Turn, engine: Option<Engine>, d: D.Drop, asked: Instant)
    ensures var after := Requested(cfg, b, turn, engine, Some(d), asked).0;
            PeriodicTimes(after.captures) == PeriodicTimes(b.captures) && after.lastProfile == b.lastProfile
  {
    hide PeriodicTimes;
    forall c: Capture | c.reason == Chute
      ensures PeriodicTimes(b.captures + [c]) == PeriodicTimes(b.captures)
    {
      PeriodicOne(b.captures, c);
    }
  }

  lemma PeriodicOne(captures: seq<Capture>, c: Capture)
    ensures c.reason == Chute ==> PeriodicTimes(captures + [c]) == PeriodicTimes(captures)
    ensures c.reason == Periodique ==> PeriodicTimes(captures + [c]) == PeriodicTimes(captures) + [c.t]
  {
    assert (captures + [c])[..|captures|] == captures;
    assert PeriodicTimes(captures) + [] == PeriodicTimes(captures);
  }

  lemma ResumingIsNotPeriodic(cfg: Config, b: Box, turn: Turn)
    ensures var after := Resumed(cfg, b, turn);
            PeriodicTimes(after.captures) == PeriodicTimes(b.captures) && after.lastProfile == b.lastProfile
  {
    hide PeriodicTimes, Requested;
    if b.waiting.Some? {
      var w, free := b.waiting.value, Asked(b, turn).(waiting := None);
      DropsAreNotPeriodic(cfg, free, turn, Some(w.engine), w.drop, w.since);
    }
  }

  lemma {:induction false} AllDropsAreNotPeriodic(cfg: Config, b: Box, turn: Turn, drops: seq<D.Drop>)
    ensures var after := AllRequested(cfg, b, turn, drops);
            PeriodicTimes(after.captures) == PeriodicTimes(b.captures) && after.lastProfile == b.lastProfile
  {
    hide PeriodicTimes, Requested;
    if drops != [] {
      var earlier, d := drops[..|drops| - 1], drops[|drops| - 1];
      AllDropsAreNotPeriodic(cfg, b, turn, earlier);
      DropsAreNotPeriodic(cfg, AllRequested(cfg, b, turn, earlier), turn, EngineOf(d.room, turn.engines), d, turn.now);
    }
  }

  /** One turn submits at most one periodic capture; it does so only a period
      after the last one, and only when no drop waits, before or after it. */
  lemma OnePeriodicCaptureAtMost(cfg: Config, b: Box, turn: Turn, drops: seq<D.Drop>)
    ensures var after := Toured(cfg, b, turn, drops);
            var times := PeriodicTimes(b.captures);
            || (PeriodicTimes(after.captures) == times && after.lastProfile == b.lastProfile)
            || (PeriodicTimes(after.captures) == times + [turn.t] && after.lastProfile == turn.t
                && turn.t - b.lastProfile >= cfg.profilePeriod && after.waiting.None?)
  {
    hide PeriodicTimes, Requested, Resumed, AllRequested, Rolled;
    var b1 := Seen(cfg, b, turn);
    var b2 := Resumed(cfg, b1, turn);
    ResumingIsNotPeriodic(cfg, b1, turn);
    AllDropsAreNotPeriodic(cfg, b2, turn, drops);
    ProfileRequest(cfg, AllRequested(cfg, b2, turn, drops), turn, EngineOf(None, turn.engines));
  }

  lemma ProfileRequest(cfg: Config, b: Box, turn: Turn, engine: Option<Engine>)
    ensures var r := Requested(cfg, b, turn, engine, None, turn.now);
            && r.0.waiting == b.waiting && r.0.lastProfile == b.lastProfile
            && (r.1 ==> PeriodicTimes(r.0.captures) == PeriodicTimes(b.captures) + [turn.t])
            && (!r.1 ==> PeriodicTimes(r.0.captures) == PeriodicTimes(b.captures))
  {
    hide PeriodicTimes;
    if engine.Some? {
      PeriodicOne(Asked(b, turn).captures, Capture(Periodique, engine.value, turn.now, turn.t, None, false));
    }
  }

  /** Over any run, periodic captures are at least a period apart, and the first
      is at least a period after the start, whatever the monotonic clock shows. */
  lemma {:induction false} PeriodicCapturesAreSpaced(cfg: Config, start: real, steps: seq<Step>)
    ensures var b := Run(cfg, start, steps);
            Spaced(cfg, start, PeriodicTimes(b.captures), b.lastProfile)
  {
    hide PeriodicTimes, Toured;
    if steps == [] {
      NoPeriodicTimes();
    } else {
      var last := steps[|steps| - 1];
      var before := Begun(Run(cfg, start, steps[..|steps| - 1]), last);
      PeriodicCapturesAreSpaced(cfg, start, steps[..|steps| - 1]);
      OnePeriodicCaptureAtMost(cfg, before, last.turn, last.drops);
      if last.turn.t - before.lastProfile >= cfg.profilePeriod {
        SpacedGrows(cfg, start, PeriodicTimes(before.captures), before.lastProfile, last.turn.t);
      }
    }
  }

  lemma SpacedGrows(cfg: Config, start: real, times: seq<real>, last: real, t: real)
    requires Spaced(cfg, start, times, last) && t - last >= cfg.profilePeriod
    ensures Spaced(cfg, start, times + [t], t)
  {
    var more := times + [t];
    forall i | 0 <= i < |more|
      ensures more[i] - Before(start, more, i) >= cfg.profilePeriod
    {
      if i < |times| {
        assert times[i] - Before(start, times, i) >= cfg.profilePeriod;
      }
    }
  }

  /** Any two of them, not only neighbours. */
  lemma {:induction false} AnyTwoPeriodicCaptures(cfg: Config, start: real, times: seq<real>, last: real, i: nat,
                                                  j: nat)
    requires cfg.profilePeriod >= 0.0 && Spaced(cfg, start, times, last) && i < j < |times|
    ensures times[j] - times[i] >= cfg.profilePeriod && times[i] - start >= cfg.profilePeriod
    decreases j, i
  {
    assert times[j] - Before(start, times, j) >= cfg.profilePeriod;
    assert times[i] - Before(start, times, i) >= cfg.profilePeriod;
    if j - 1 > i {
      AnyTwoPeriodicCaptures(cfg, start, times, last, i, j - 1);
    } else if i > 0 {
      AnyTwoPeriodicCaptures(cfg, start, times, last, i - 1, i);
    }
  }

  /** The clock of the last periodic capture, or of the start. */
  function LastPeriodic(start: real, b: Box): real {
    var times := PeriodicTimes(b.captures);
    if times == [] then start else times[|times| - 1]
  }

  lemma PeriodicIsTried(cfg: Config, b: Box, turn: Turn)
    requires Sound(cfg, b) && EngineOf(None, turn.engines).Some?
    requires var after := Periodic(cfg, b, turn);
             after.waiting.None? && turn.t - after.lastProfile >= cfg.profilePeriod
    ensures Busy(Periodic(cfg, b, turn))
  {
    hide Told, Ends, CapturedDrops, SubmittedDrops, WithinTheLimit, ReasonsMatch, EngineOf;
  }

  /** Nor is one forgotten: after a turn that got as far as its captures, with an engine that
      has threads, nothing waiting and a period gone by since the last one, a capture runs. */
  lemma PeriodicIsNotForgotten(cfg: Config, start: real, steps: seq<Step>, e: Engine)
    requires steps != [] && CapturesAt(cfg, start, steps, |steps| - 1)
    requires e in steps[|steps| - 1].turn.engines && e.threads > 0 && Run(cfg, start, steps).waiting.None?
    requires steps[|steps| - 1].turn.t - LastPeriodic(start, Run(cfg, start, steps)) >= cfg.profilePeriod
    ensures Busy(Run(cfg, start, steps))
  {
    hide Sound, Accounted, Resumed, AllRequested, Periodic, EngineOf, PeriodicTimes, Captures, Begun, Seen, Run;
    var n := |steps| - 1;
    var turn, drops := steps[n].turn, steps[n].drops;
    PeriodicCapturesAreSpaced(cfg, start, steps);
    EveryDropIsAccountedFor(cfg, start, steps[..n]);
    LastAsks(cfg, start, steps);
    var b := At(cfg, start, steps, n);
    RollingIsApart(cfg, Run(cfg, start, steps[..n]), steps[n]);
    ReadingKeeps(cfg, b, turn);
    ResumedKeeps(cfg, Seen(cfg, b, turn), turn);
    var b2 := Resumed(cfg, Seen(cfg, b, turn), turn);
    AllRequestedKeeps(cfg, b2, turn, drops);
    EngineOfIs(None, turn.engines);
    assert Fits(e, None);
    CapturingReads(cfg, b, turn);
    PeriodicIsTried(cfg, AllRequested(cfg, b2, turn, drops), turn);
  }

  lemma CapturingReads(cfg: Config, b: Box, turn: Turn)
    ensures Captures(cfg, b, turn) ==> turn.failing != TheReading
  {
  }

  lemma NoPeriodicTimes()
    ensures PeriodicTimes([]) == []
  {
  }

  // ---- what becomes of a drop in one turn ------------------------------------

  /** The one waiting slot, at the first turn whose first question finds the
      capture before it done: the drop is submitted there if it has waited at most
      a minute, and abandoned otherwise; until then it keeps its place unless a
      later drop is put off too. */
  lemma WaitingDropIsDecided(cfg: Config, b: Box, turn: Turn)
    requires b.waiting.Some? && Captures(cfg, b, turn)
    ensures var w, after := b.waiting.value, Resumed(cfg, Seen(cfg, b, turn), turn);
            var done := b.current.None? || b.current.value in b.finished || turn.done(0);
            && (done ==>
                  && after.waiting.None?
                  && after.ledger == b.ledger + [if turn.now - w.since <= ATTENTE_MAX
                                                 then Submitted(w.drop, w.since, turn.now)
                                                 else TooLate(w.drop, w.since, turn.now)])
            && (!done ==> after.waiting == b.waiting && after.ledger == b.ledger)
  {
  }

  predicate Fits(e: Engine, room: Option<int>) {
    e.threads > 0 && (room.Some? ==> e.room == room)
  }

  /** A new drop: without an engine in its room it ends at once; with one it is
      submitted at once exactly when no capture runs; otherwise it takes the slot,
      and the drop that was in it ends replaced. */
  lemma NewDropInOneTurn(cfg: Config, b: Box, turn: Turn, d: D.Drop)
    ensures var engine := EngineOf(d.room, turn.engines);
            var busy := b.current.Some? && b.current.value !in b.finished && !turn.done(b.asks);
            var (after, submitted) := Requested(cfg, b, turn, engine, Some(d), turn.now);
            && (submitted <==> !busy && exists e :: e in turn.engines && Fits(e, d.room))
            && (submitted ==> after.ledger == b.ledger + [Submitted(d, turn.now, turn.now)]
                              && after.waiting == b.waiting)
            && (engine.None? ==> after.ledger == b.ledger + [WithoutEngine(d, turn.now, turn.now)]
                                 && after.waiting == b.waiting)
            && (engine.Some? && busy ==>
                  && after.waiting == Some(Waiting(d, engine.value, turn.now))
                  && after.ledger
                     == b.ledger + (if b.waiting.None? then []
                                    else [Replaced(b.waiting.value.drop, b.waiting.value.since, turn.now)]))
            && after.journal
               == b.journal + [if engine.None? then Impossible(turn.now, Chute, Some(d))
                               else if busy then Deferred(turn.now, d)
                               else Captured(turn.now, Chute, engine.value.room, Some(d))]
  {
    var engine := EngineOf(d.room, turn.engines);
    if engine.Some? {
      assert Fits(engine.value, d.room);
    }
  }

  /** A periodic capture: submitted when nothing runs; otherwise it is skipped, which the log
      tells, and nothing waits for it. */
  lemma PeriodicInOneTurn(cfg: Config, b: Box, turn: Turn)
    requires b.waiting.None? && turn.t - b.lastProfile >= cfg.profilePeriod
    requires exists e :: e in turn.engines && Fits(e, None)
    ensures var engine, after := EngineOf(None, turn.engines), Periodic(cfg, b, turn);
            var busy := b.current.Some? && b.current.value !in b.finished && !turn.done(b.asks);
            && engine.Some? && after.waiting.None? && after.ledger == b.ledger
            && after.lastProfile == (if busy then b.lastProfile else turn.t)
            && after.captures == b.captures + (if busy then [] else
                                               [Capture(Periodique, engine.value, turn.now, turn.t, None, false)])
            && after.journal == b.journal + [if busy then Skipped(turn.now, Periodique)
                                             else Captured(turn.now, Periodique, engine.value.room, None)]
  {
    EngineOfIs(None, turn.engines);
    var e :| e in turn.engines && Fits(e, None);
    assert b.ledger + [] == b.ledger && b.captures + [] == b.captures;
  }

  // ---- which engine is captured ----------------------------------------------

  /** The first engine with threads that fits a room, or the first of all with threads. */
  ghost predicate FirstFit(engines: seq<Engine>, room: Option<int>, e: Engine) {
    exists j :: 0 <= j < |engines| && engines[j] == e && Fits(e, room)
                && forall k :: 0 <= k < j ==> !Fits(engines[k], room)
  }

  lemma {:induction false} FirstOfIs(room: Option<int>, engines: seq<Engine>)
    ensures FirstOf(room, WithThreads(engines)).Some? ==>
              FirstFit(engines, room, FirstOf(room, WithThreads(engines)).value)
    ensures FirstOf(room, WithThreads(engines)).None? ==>
              forall k :: 0 <= k < |engines| ==> !Fits(engines[k], room)
  {
    if engines != [] {
      var rest := engines[1..];
      FirstOfIs(room, rest);
      if Fits(engines[0], room) {
        assert WithThreads(engines) == [engines[0]] + WithThreads(rest);
      } else {
        assert FirstOf(room, WithThreads(engines)) == FirstOf(room, WithThreads(rest)) by {
          if engines[0].threads > 0 {
            assert WithThreads(engines)[1..] == WithThreads(rest);
          }
        }
        if FirstOf(room, WithThreads(rest)).Some? {
          var e := FirstOf(room, WithThreads(rest)).value;
          var j :| 0 <= j < |rest| && rest[j] == e && forall k :: 0 <= k < j ==> !Fits(rest[k], room);
          assert engines[j + 1] == e;
          assert forall k :: 0 <= k < j + 1 ==> k == 0 || engines[k] == rest[k - 1];
        } else {
          assert forall k :: 0 < k < |engines| ==> engines[k] == rest[k - 1];
        }
      }
    }
  }

  lemma EngineOfIs(room: Option<int>, engines: seq<Engine>)
    ensures EngineOf(room, engines).Some? ==> FirstFit(engines, room, EngineOf(room, engines).value)
    ensures EngineOf(room, engines).None? ==> forall k :: 0 <= k < |engines| ==> !Fits(engines[k], room)
  {
    FirstOfIs(room, engines);
  }

  function RoomOf(drop: Option<D.Drop>): Option<int> {
    if drop.Some? then drop.value.room else None
  }

  /** A capture of this engine was given for this drop, or for none; or that drop waits for
      it. */
  ghost predicate Has(b: Box, e: Engine, drop: Option<D.Drop>) {
    || (exists i :: 0 <= i < |b.captures| && b.captures[i].engine == e && b.captures[i].drop == drop)
    || (b.waiting.Some? && b.waiting.value.engine == e && Some(b.waiting.value.drop) == drop)
  }

  /** A turn may ask for a capture of this engine for this drop, or for none. */
  ghost predicate MayAsk(turn: Turn, drops: seq<D.Drop>, e: Engine, drop: Option<D.Drop>) {
    (drop.Some? ==> drop.value in drops) && FirstFit(turn.engines, RoomOf(drop), e)
  }

  /** A drop of the turn that no engine fits. */
  ghost predicate NoFit(turn: Turn, drops: seq<D.Drop>, d: D.Drop) {
    d in drops && forall k :: 0 <= k < |turn.engines| ==> !Fits(turn.engines[k], d.room)
  }

  /** Nothing new but what the turn may ask for, and what no engine fits. */
  ghost predicate Only(before: Box, after: Box, turn: Turn, drops: seq<D.Drop>) {
    && (forall e, drop :: Has(after, e, drop) ==> Has(before, e, drop) || MayAsk(turn, drops, e, drop))
    && (forall f :: f in after.ledger ==>
          f in before.ledger || (f.at == turn.now && (f.WithoutEngine? ==> NoFit(turn, drops, f.drop))))
    && (forall c :: c in after.captures ==> c in before.captures || (c.at == turn.now && c.t == turn.t))
  }

  lemma HasOneMore(b: Box, c: Capture)
    ensures forall e, drop ::
              Has(b.(captures := b.captures + [c]), e, drop) <==> Has(b, e, drop) || (c.engine == e && c.drop == drop)
  {
    var more := b.(captures := b.captures + [c]);
    assert more.captures[|b.captures|] == c;
    forall e, drop
      ensures Has(more, e, drop) <==> Has(b, e, drop) || (c.engine == e && c.drop == drop)
    {
      if i :| 0 <= i < |b.captures| && b.captures[i].engine == e && b.captures[i].drop == drop {
        assert more.captures[i] == b.captures[i];
      }
    }
  }

  lemma RequestOnly(cfg: Config, b: Box, turn: Turn, drops: seq<D.Drop>, engine: Option<Engine>,
                    drop: Option<D.Drop>, asked: Instant)
    requires engine.Some? ==> MayAsk(turn, drops, engine.value, drop)
    requires engine.None? && drop.Some? ==> NoFit(turn, drops, drop.value)
    ensures Only(b, Requested(cfg, b, turn, engine, drop, asked).0, turn, drops)
  {
    hide MayAsk, NoFit;
    if engine.Some? {
      var reason := if drop.Some? then Chute else Periodique;
      var c := Capture(reason, engine.value, turn.now, turn.t, drop, drop.Some? && cfg.rolling);
      HasOneMore(Asked(b, turn), c);
    }
  }

  lemma ResumingOnly(cfg: Config, b: Box, turn: Turn, drops: seq<D.Drop>)
    ensures Only(b, Resumed(cfg, b, turn), turn, drops)
  {
    hide MayAsk, NoFit;
    if b.waiting.Some? {
      var w, free := b.waiting.value, Asked(b, turn).(waiting := None);
      var c := Capture(Chute, w.engine, turn.now, turn.t, Some(w.drop), cfg.rolling);
      HasOneMore(free, c);
    }
  }

  lemma OnlyTwice(a: Box, b: Box, c: Box, turn: Turn, drops: seq<D.Drop>)
    requires Only(a, b, turn, drops) && Only(b, c, turn, drops)
    ensures Only(a, c, turn, drops)
  {
    hide Has, MayAsk, NoFit;
  }

  lemma {:induction false} RequestsOnly(cfg: Config, b: Box, turn: Turn, all: seq<D.Drop>, drops: seq<D.Drop>)
    requires forall d :: d in drops ==> d in all
    ensures Only(b, AllRequested(cfg, b, turn, drops), turn, all)
  {
    hide Requested, EngineOf, Only, FirstFit;
    if drops == [] {
      OnlyItself(b, turn, all);
    } else {
      var n := |drops| - 1;
      var mid, d := AllRequested(cfg, b, turn, drops[..n]), drops[n];
      RequestsOnly(cfg, b, turn, all, drops[..n]);
      EngineOfIs(d.room, turn.engines);
      assert d in drops;
      RequestOnly(cfg, mid, turn, all, EngineOf(d.room, turn.engines), Some(d), turn.now);
      OnlyTwice(b, mid, AllRequested(cfg, b, turn, drops), turn, all);
    }
  }

  lemma OnlyItself(b: Box, turn: Turn, drops: seq<D.Drop>)
    ensures Only(b, b, turn, drops)
  {
  }

  lemma PeriodicOnly(cfg: Config, b: Box, turn: Turn, drops: seq<D.Drop>)
    ensures Only(b, Periodic(cfg, b, turn), turn, drops)
  {
    hide Requested, EngineOf, FirstFit;
    OnlyItself(b, turn, drops);
    EngineOfIs(None, turn.engines);
    if EngineOf(None, turn.engines).Some? {
      RequestOnly(cfg, b, turn, drops, EngineOf(None, turn.engines), None, turn.now);
    }
  }

  /** One turn: only its own drops, and a capture without a drop, each for the engine that
      fits. */
  lemma ATurnAsksOnly(cfg: Config, b: Box, step: Step)
    ensures var after := Toured(cfg, Begun(b, step), step.turn, step.drops);
            && (Captures(cfg, Begun(b, step), step.turn) ==> Only(b, after, step.turn, step.drops))
            && (!Captures(cfg, Begun(b, step), step.turn) ==>
                  && after.ledger == b.ledger && after.captures == b.captures
                  && forall e, drop :: Has(after, e, drop) == Has(b, e, drop))
  {
    hide MayAsk, NoFit, Resumed, AllRequested, Periodic, RollingRaises, Rolled, Only;
    var b0, turn := Begun(b, step), step.turn;
    var b1 := Seen(cfg, b0, turn);
    var b2 := Resumed(cfg, b1, turn);
    var b3 := AllRequested(cfg, b2, turn, step.drops);
    ResumingOnly(cfg, b1, turn, step.drops);
    RequestsOnly(cfg, b2, turn, step.drops, step.drops);
    PeriodicOnly(cfg, b3, turn, step.drops);
    OnlyTwice(b1, b2, b3, turn, step.drops);
    OnlyTwice(b1, b3, Periodic(cfg, b3, turn), turn, step.drops);
    SameHas(b, b1);
    SameHas(Toured(cfg, b0, turn, step.drops), Periodic(cfg, b3, turn));
    SameHas(Toured(cfg, b0, turn, step.drops), b);
    if Captures(cfg, b0, turn) {
      OnlySame(b, b1, Toured(cfg, b0, turn, step.drops), Periodic(cfg, b3, turn), turn, step.drops);
    }
  }

  /** What does not touch the captures, the slot and the ledger does not matter. */
  lemma SameHas(b: Box, c: Box)
    ensures b.captures == c.captures && b.waiting == c.waiting ==> forall e, drop :: Has(b, e, drop) == Has(c, e, drop)
  {
  }

  lemma OnlySame(b: Box, b': Box, c: Box, c': Box, turn: Turn, drops: seq<D.Drop>)
    requires b.ledger == b'.ledger && c.ledger == c'.ledger && Only(b', c', turn, drops)
    requires b.captures == b'.captures && c.captures == c'.captures
    requires forall e, drop :: Has(b, e, drop) == Has(b', e, drop)
    requires forall e, drop :: Has(c, e, drop) == Has(c', e, drop)
    ensures Only(b, c, turn, drops)
  {
    hide Has, MayAsk, NoFit;
  }

  /** The i-th turn gets as far as its captures, and asks for this engine. */
  ghost predicate AskedAt(cfg: Config, start: real, steps: seq<Step>, i: nat, e: Engine, drop: Option<D.Drop>)
    requires i < |steps|
  {
    CapturesAt(cfg, start, steps, i) && MayAsk(steps[i].turn, steps[i].drops, e, drop)
  }

  ghost predicate NoFitAt(cfg: Config, start: real, steps: seq<Step>, i: nat, d: D.Drop)
    requires i < |steps|
  {
    CapturesAt(cfg, start, steps, i) && NoFit(steps[i].turn, steps[i].drops, d)
  }

  lemma {:induction false} WhoIsCaptured(cfg: Config, start: real, steps: seq<Step>)
    ensures var b := Run(cfg, start, steps);
            && (forall e, drop :: Has(b, e, drop) ==>
                  exists i :: 0 <= i < |steps| && AskedAt(cfg, start, steps, i, e, drop))
            && (forall f :: f in b.ledger && f.WithoutEngine? ==>
                  exists i :: 0 <= i < |steps| && NoFitAt(cfg, start, steps, i, f.drop))
  {
    hide Has, MayAsk, NoFit, Captures, Toured, Begun, Run;
    if steps == [] {
      NothingAskedYet(cfg, start);
    } else {
      var n := |steps| - 1;
      var early := steps[..n];
      WhoIsCaptured(cfg, start, early);
      forall i, e, drop | 0 <= i < n
        ensures AskedAt(cfg, start, early, i, e, drop) == AskedAt(cfg, start, steps, i, e, drop)
      {
        EarlierAt(cfg, start, steps, n, i);
      }
      forall i, d | 0 <= i < n
        ensures NoFitAt(cfg, start, early, i, d) == NoFitAt(cfg, start, steps, i, d)
      {
        EarlierAt(cfg, start, steps, n, i);
      }
      ATurnAsksOnly(cfg, Run(cfg, start, early), steps[n]);
      LastAsks(cfg, start, steps);
      forall e, drop | Has(Run(cfg, start, steps), e, drop)
        ensures exists i :: 0 <= i < |steps| && AskedAt(cfg, start, steps, i, e, drop)
      {
        if Has(Run(cfg, start, early), e, drop) {
          var i :| 0 <= i < n && AskedAt(cfg, start, early, i, e, drop);
          assert AskedAt(cfg, start, steps, i, e, drop);
        } else {
          assert AskedAt(cfg, start, steps, n, e, drop);
        }
      }
      forall f | f in Run(cfg, start, steps).ledger && f.WithoutEngine?
        ensures exists i :: 0 <= i < |steps| && NoFitAt(cfg, start, steps, i, f.drop)
      {
        if f in Run(cfg, start, early).ledger {
          var i :| 0 <= i < n && NoFitAt(cfg, start, early, i, f.drop);
          assert NoFitAt(cfg, start, steps, i, f.drop);
        } else {
          assert NoFitAt(cfg, start, steps, n, f.drop);
        }
      }
    }
  }

  lemma NothingAskedYet(cfg: Config, start: real)
    ensures Run(cfg, start, []).captures == []
    ensures Run(cfg, start, []).ledger == [] && forall e, drop :: !Has(Run(cfg, start, []), e, drop)
  {
  }

  lemma LastAsks(cfg: Config, start: real, steps: seq<Step>)
    requires steps != []
    ensures var n := |steps| - 1;
            && At(cfg, start, steps, n) == Begun(Run(cfg, start, steps[..n]), steps[n])
            && Run(cfg, start, steps)
               == Toured(cfg, Begun(Run(cfg, start, steps[..n]), steps[n]), steps[n].turn, steps[n].drops)
  {
  }

  /** Over every run. A capture given for a drop of a room, or a drop of a room that waits, is
      of the first engine with threads of that room in a turn that gave that drop; one for a
      drop without a room, or for none, of the first engine with threads of all. A drop ends
      without an engine only when none of the turn that gave it fits. */
  lemma TheEngineFits(cfg: Config, start: real, steps: seq<Step>)
    ensures var b := Run(cfg, start, steps);
            && (forall c :: c in b.captures ==>
                  exists i :: 0 <= i < |steps| && AskedAt(cfg, start, steps, i, c.engine, c.drop))
            && (b.waiting.Some? ==>
                  exists i :: 0 <= i < |steps|
                              && AskedAt(cfg, start, steps, i, b.waiting.value.engine, Some(b.waiting.value.drop)))
            && (forall f :: f in b.ledger && f.WithoutEngine? ==>
                  exists i :: 0 <= i < |steps| && NoFitAt(cfg, start, steps, i, f.drop))
            && (forall c :: c in b.captures ==>
                  c.engine.threads > 0 && (RoomOf(c.drop).Some? ==> c.engine.room == RoomOf(c.drop)))
  {
    hide Run, AskedAt, NoFitAt, Has;
    WhoIsCaptured(cfg, start, steps);
    var b := Run(cfg, start, steps);
    forall c | c in b.captures
      ensures exists i :: 0 <= i < |steps| && AskedAt(cfg, start, steps, i, c.engine, c.drop)
      ensures c.engine.threads > 0 && (RoomOf(c.drop).Some? ==> c.engine.room == RoomOf(c.drop))
    {
      CaptureIsHad(b, c);
      var k := WhereAsked(cfg, start, steps, c.engine, c.drop);
      WhoFits(cfg, start, steps, k, c.engine, c.drop);
    }
    if b.waiting.Some? {
      WaitingIsHad(b);
      var k := WhereAsked(cfg, start, steps, b.waiting.value.engine, Some(b.waiting.value.drop));
    }
  }

  lemma CaptureIsHad(b: Box, c: Capture)
    requires c in b.captures
    ensures Has(b, c.engine, c.drop)
  {
  }

  lemma WaitingIsHad(b: Box)
    requires b.waiting.Some?
    ensures Has(b, b.waiting.value.engine, Some(b.waiting.value.drop))
  {
  }

  lemma WhereAsked(cfg: Config, start: real, steps: seq<Step>, e: Engine, drop: Option<D.Drop>) returns (k: nat)
    requires Has(Run(cfg, start, steps), e, drop)
    ensures k < |steps| && AskedAt(cfg, start, steps, k, e, drop)
  {
    hide Run, AskedAt, NoFitAt, Has;
    WhoIsCaptured(cfg, start, steps);
    k :| 0 <= k < |steps| && AskedAt(cfg, start, steps, k, e, drop);
  }

  lemma WhoFits(cfg: Config, start: real, steps: seq<Step>, i: nat, e: Engine, drop: Option<D.Drop>)
    requires i < |steps| && AskedAt(cfg, start, steps, i, e, drop)
    ensures Fits(e, RoomOf(drop)) && e in steps[i].turn.engines
  {
  }

  ghost predicate HappensAt(cfg: Config, start: real, steps: seq<Step>, i: nat, now: Instant)
    requires i < |steps|
  {
    CapturesAt(cfg, start, steps, i) && steps[i].turn.now == now
  }

  /** Over every run, each end in the ledger and each capture is of a turn that got as far as
      its captures: its instants are those of that turn's clocks. */
  lemma {:induction false} WhenThingsHappen(cfg: Config, start: real, steps: seq<Step>)
    ensures var b := Run(cfg, start, steps);
            && (forall f :: f in b.ledger ==>
                  exists i :: 0 <= i < |steps| && HappensAt(cfg, start, steps, i, f.at))
            && (forall c :: c in b.captures ==>
                  exists i :: 0 <= i < |steps| && HappensAt(cfg, start, steps, i, c.at) && steps[i].turn.t == c.t)
  {
    hide Has, MayAsk, NoFit, Captures, Toured, Begun, Run;
    if steps == [] {
      NothingAskedYet(cfg, start);
    } else {
      var n := |steps| - 1;
      var early := steps[..n];
      WhenThingsHappen(cfg, start, early);
      forall i, now | 0 <= i < n
        ensures HappensAt(cfg, start, early, i, now) == HappensAt(cfg, start, steps, i, now) && early[i] == steps[i]
      {
        EarlierAt(cfg, start, steps, n, i);
      }
      ATurnAsksOnly(cfg, Run(cfg, start, early), steps[n]);
      LastAsks(cfg, start, steps);
      forall f | f in Run(cfg, start, steps).ledger
        ensures exists i :: 0 <= i < |steps| && HappensAt(cfg, start, steps, i, f.at)
      {
        if f in Run(cfg, start, early).ledger {
          var i :| 0 <= i < n && HappensAt(cfg, start, early, i, f.at);
          assert HappensAt(cfg, start, steps, i, f.at);
        } else {
          assert HappensAt(cfg, start, steps, n, f.at);
        }
      }
      forall c | c in Run(cfg, start, steps).captures
        ensures exists i :: 0 <= i < |steps| && HappensAt(cfg, start, steps, i, c.at) && steps[i].turn.t == c.t
      {
        if c in Run(cfg, start, early).captures {
          var i :| 0 <= i < n && HappensAt(cfg, start, early, i, c.at) && early[i].turn.t == c.t;
          assert HappensAt(cfg, start, steps, i, c.at);
        } else {
          assert HappensAt(cfg, start, steps, n, c.at);
        }
      }
    }
  }

  // ---- what the log tells of the captures ------------------------------------

  /** What a line about a capture tells, and what a capture is. */
  datatype Telling = Telling(when: Instant, reason: Reason, room: Option<int>, details: Option<D.Drop>)

  function Tellings(journal: seq<Entry>): seq<Telling> {
    if journal == [] then []
    else
      var last := journal[|journal| - 1];
      Tellings(journal[..|journal| - 1])
      + if last.Captured? then [Telling(last.when, last.reason, last.room, last.details)] else []
  }

  function Made(captures: seq<Capture>): seq<Telling> {
    if captures == [] then []
    else
      var c := captures[|captures| - 1];
      Made(captures[..|captures| - 1]) + [Telling(c.at, c.reason, c.engine.room, c.drop)]
  }

  lemma TellingsMore(journal: seq<Entry>, e: Entry)
    ensures Tellings(journal + [e])
            == Tellings(journal) + if e.Captured? then [Telling(e.when, e.reason, e.room, e.details)] else []
    ensures !e.Captured? ==> Tellings(journal + [e]) == Tellings(journal)
  {
    assert (journal + [e])[..|journal|] == journal;
  }

  lemma MadeMore(captures: seq<Capture>, c: Capture)
    ensures Made(captures + [c]) == Made(captures) + [Telling(c.at, c.reason, c.engine.room, c.drop)]
  {
    assert (captures + [c])[..|captures|] == captures;
  }

  ghost predicate ToldAsMade(b: Box) {
    Tellings(b.journal) == Made(b.captures)
  }

  lemma RequestTells(cfg: Config, b: Box, turn: Turn, engine: Option<Engine>, drop: Option<D.Drop>, asked: Instant)
    requires ToldAsMade(b)
    ensures ToldAsMade(Requested(cfg, b, turn, engine, drop, asked).0)
  {
    hide Tellings, Made;
    forall e: Entry
      ensures !e.Captured? ==> Tellings(b.journal + [e]) == Tellings(b.journal)
    {
      TellingsMore(b.journal, e);
    }
    if engine.Some? {
      var reason := if drop.Some? then Chute else Periodique;
      TellingsMore(b.journal, Captured(turn.now, reason, engine.value.room, drop));
      MadeMore(b.captures, Capture(reason, engine.value, turn.now, turn.t, drop, drop.Some? && cfg.rolling));
    }
  }

  lemma {:induction false} RequestsTell(cfg: Config, b: Box, turn: Turn, drops: seq<D.Drop>)
    requires ToldAsMade(b)
    ensures ToldAsMade(AllRequested(cfg, b, turn, drops))
  {
    hide ToldAsMade, Requested, EngineOf;
    if drops != [] {
      var n := |drops| - 1;
      RequestsTell(cfg, b, turn, drops[..n]);
      RequestTells(cfg, AllRequested(cfg, b, turn, drops[..n]), turn, EngineOf(drops[n].room, turn.engines),
                   Some(drops[n]), turn.now);
    }
  }

  lemma ResumingTells(cfg: Config, b: Box, turn: Turn)
    requires ToldAsMade(b)
    ensures ToldAsMade(Resumed(cfg, b, turn))
  {
    hide Requested, Tellings, Made;
    if b.waiting.Some? {
      var w, free := b.waiting.value, Asked(b, turn).(waiting := None);
      TellingsMore(b.journal, Abandoned(turn.now, w.drop));
      RequestTells(cfg, free, turn, Some(w.engine), Some(w.drop), w.since);
    }
  }

  lemma PeriodicTells(cfg: Config, b: Box, turn: Turn)
    requires ToldAsMade(b)
    ensures ToldAsMade(Periodic(cfg, b, turn))
  {
    hide Requested, Tellings, Made, EngineOf;
    RequestTells(cfg, b, turn, EngineOf(None, turn.engines), None, turn.now);
  }

  /** Over every run the log tells every capture that was given, in order: when, why, of which
      room and for which drop. */
  lemma {:induction false} TheLogTellsTheCaptures(cfg: Config, start: real, steps: seq<Step>)
    ensures Tellings(Run(cfg, start, steps).journal) == Made(Run(cfg, start, steps).captures)
  {
    hide Tellings, Made, Resumed, AllRequested, Periodic, RollingRaises, Rolled, Begun;
    if steps == [] {
      NothingTold();
    } else {
      var n := |steps| - 1;
      TheLogTellsTheCaptures(cfg, start, steps[..n]);
      ATurnTells(cfg, Run(cfg, start, steps[..n]), steps[n]);
    }
  }

  lemma NothingTold()
    ensures Tellings([]) == Made([])
  {
  }

  lemma ATurnTells(cfg: Config, b: Box, step: Step)
    requires ToldAsMade(b)
    ensures ToldAsMade(Toured(cfg, Begun(b, step), step.turn, step.drops))
  {
    hide Tellings, Made, Resumed, AllRequested, Periodic, RollingRaises, Rolled;
    var b1 := Seen(cfg, Begun(b, step), step.turn);
    TellingsMore(b.journal, Reading(step.turn.now, WithAllocator(cfg, Begun(b, step), step.turn)));
    assert ToldAsMade(b1);
    var b2 := Resumed(cfg, b1, step.turn);
    ResumingTells(cfg, b1, step.turn);
    RequestsTell(cfg, b2, step.turn, step.drops);
    PeriodicTells(cfg, AllRequested(cfg, b2, step.turn, step.drops), step.turn);
  }

  // ---- when the allocator is read --------------------------------------------

  /** The i-th turn asks for the allocator's counters with its reading. */
  predicate AllocatorAt(cfg: Config, start: real, steps: seq<Step>, i: nat)
    requires i < |steps|
  {
    WithAllocator(cfg, At(cfg, start, steps, i), steps[i].turn)
  }

  /** The turn before the i-th that did was at this clock. */
  ghost predicate LastAllocatorIs(cfg: Config, start: real, steps: seq<Step>, i: nat, t: real)
    requires i <= |steps|
  {
    exists j :: 0 <= j < i && AllocatorAt(cfg, start, steps, j) && steps[j].turn.t == t
                && forall k :: j < k < i ==> !AllocatorAt(cfg, start, steps, k)
  }

  lemma {:induction false} AllocatorIsNoted(cfg: Config, start: real, steps: seq<Step>, t: real)
    ensures Run(cfg, start, steps).lastAllocator == Some(t) <==> LastAllocatorIs(cfg, start, steps, |steps|, t)
  {
    hide WithAllocator, Toured, Begun;
    if steps != [] {
      var n := |steps| - 1;
      var early := steps[..n];
      AllocatorIsNoted(cfg, start, early, t);
      NotedAllocator(cfg, Run(cfg, start, early), steps[n]);
      forall k | 0 <= k < n
        ensures AllocatorAt(cfg, start, early, k) == AllocatorAt(cfg, start, steps, k) && early[k] == steps[k]
      {
        EarlierAt(cfg, start, steps, n, k);
      }
      hide Run;
      LastAsks(cfg, start, steps);
      if AllocatorAt(cfg, start, steps, n) {
        if LastAllocatorIs(cfg, start, steps, |steps|, t) {
          var j :| 0 <= j < |steps| && AllocatorAt(cfg, start, steps, j) && steps[j].turn.t == t
                   && forall k :: j < k < |steps| ==> !AllocatorAt(cfg, start, steps, k);
          assert j == n;
        }
      } else {
        SameLastAllocator(cfg, start, steps, t);
      }
    }
  }

  lemma SameLastAllocator(cfg: Config, start: real, steps: seq<Step>, t: real)
    requires steps != [] && !AllocatorAt(cfg, start, steps, |steps| - 1)
    requires forall k :: 0 <= k < |steps| - 1 ==>
               && AllocatorAt(cfg, start, steps[..|steps| - 1], k) == AllocatorAt(cfg, start, steps, k)
               && steps[..|steps| - 1][k] == steps[k]
    ensures LastAllocatorIs(cfg, start, steps, |steps|, t)
            <==> LastAllocatorIs(cfg, start, steps[..|steps| - 1], |steps| - 1, t)
  {
    hide AllocatorAt;
    var n, early := |steps| - 1, steps[..|steps| - 1];
    if LastAllocatorIs(cfg, start, early, n, t) {
      var j :| 0 <= j < n && AllocatorAt(cfg, start, early, j) && early[j].turn.t == t
               && forall k :: j < k < n ==> !AllocatorAt(cfg, start, early, k);
      assert AllocatorAt(cfg, start, steps, j) && steps[j].turn.t == t;
    }
    if LastAllocatorIs(cfg, start, steps, |steps|, t) {
      var j :| 0 <= j < |steps| && AllocatorAt(cfg, start, steps, j) && steps[j].turn.t == t
               && forall k :: j < k < |steps| ==> !AllocatorAt(cfg, start, steps, k);
      assert AllocatorAt(cfg, start, early, j) && early[j].turn.t == t;
    }
  }

  lemma NotedAllocator(cfg: Config, b: Box, step: Step)
    ensures Toured(cfg, Begun(b, step), step.turn, step.drops).lastAllocator
            == if WithAllocator(cfg, Begun(b, step), step.turn) then Some(step.turn.t) else b.lastAllocator
  {
    hide RollingRaises, Resumed, AllRequested, Periodic, Rolled, WithAllocator;
    var b1 := Seen(cfg, Begun(b, step), step.turn);
    var b2 := Resumed(cfg, b1, step.turn);
    OthersKeepAllocator(cfg, b1, step.turn);
    RequestsKeepAllocator(cfg, b2, step.turn, step.drops);
    OthersKeepAllocator(cfg, AllRequested(cfg, b2, step.turn, step.drops), step.turn);
  }

  lemma OthersKeepAllocator(cfg: Config, b: Box, turn: Turn)
    ensures Resumed(cfg, b, turn).lastAllocator == b.lastAllocator
    ensures Periodic(cfg, b, turn).lastAllocator == b.lastAllocator
  {
    hide EngineOf;
  }

  lemma {:induction false} RequestsKeepAllocator(cfg: Config, b: Box, turn: Turn, drops: seq<D.Drop>)
    ensures AllRequested(cfg, b, turn, drops).lastAllocator == b.lastAllocator
  {
    hide EngineOf;
    if drops != [] {
      RequestsKeepAllocator(cfg, b, turn, drops[..|drops| - 1]);
    }
  }

  /** Over every run, a turn asks for the allocator's counters if and only if no game is on, or
      they may be read in a game, and a period has gone by since the last turn that asked, even
      if its reading then failed. */
  lemma AllocatorIff(cfg: Config, start: real, steps: seq<Step>, i: nat)
    requires i < |steps|
    ensures AllocatorAt(cfg, start, steps, i)
            <==> && (steps[i].turn.engineRunning ==> cfg.debugfsInGame)
                 && forall t :: LastAllocatorIs(cfg, start, steps[..i], i, t) ==>
                      steps[i].turn.t - t >= cfg.allocatorPeriod
  {
    hide Run;
    var b := Run(cfg, start, steps[..i]);
    if b.lastAllocator.Some? {
      AllocatorIsNoted(cfg, start, steps[..i], b.lastAllocator.value);
    }
    forall t | LastAllocatorIs(cfg, start, steps[..i], i, t)
      ensures b.lastAllocator == Some(t)
    {
      AllocatorIsNoted(cfg, start, steps[..i], t);
    }
  }

  /** The readings the log tells, with whether they hold the allocator's counters. */
  function ReadingsTold(journal: seq<Entry>): seq<(Instant, bool)> {
    if journal == [] then []
    else
      var last := journal[|journal| - 1];
      ReadingsTold(journal[..|journal| - 1]) + if last.Reading? then [(last.when, last.withAllocator)] else []
  }

  function ReadingsMade(cfg: Config, start: real, steps: seq<Step>): seq<(Instant, bool)> {
    if steps == [] then []
    else
      var i := |steps| - 1;
      ReadingsMade(cfg, start, steps[..i])
      + if steps[i].turn.failing != TheReading then [(steps[i].turn.now, AllocatorAt(cfg, start, steps, i))] else []
  }

  lemma ReadingsMore(journal: seq<Entry>, e: Entry)
    ensures ReadingsTold(journal + [e])
            == ReadingsTold(journal) + if e.Reading? then [(e.when, e.withAllocator)] else []
    ensures !e.Reading? ==> ReadingsTold(journal + [e]) == ReadingsTold(journal)
  {
    assert (journal + [e])[..|journal|] == journal;
  }

  lemma OthersReadNothing(cfg: Config, b: Box, turn: Turn, engine: Option<Engine>, drop: Option<D.Drop>, asked: Instant)
    ensures ReadingsTold(Requested(cfg, b, turn, engine, drop, asked).0.journal) == ReadingsTold(b.journal)
    ensures ReadingsTold(Resumed(cfg, b, turn).journal) == ReadingsTold(b.journal)
    ensures ReadingsTold(Periodic(cfg, b, turn).journal) == ReadingsTold(b.journal)
  {
    hide ReadingsTold, EngineOf;
    forall e: Entry | !e.Reading?
      ensures ReadingsTold(b.journal + [e]) == ReadingsTold(b.journal)
    {
      ReadingsMore(b.journal, e);
    }
  }

  lemma {:induction false} RequestsReadNothing(cfg: Config, b: Box, turn: Turn, drops: seq<D.Drop>)
    ensures ReadingsTold(AllRequested(cfg, b, turn, drops).journal) == ReadingsTold(b.journal)
  {
    hide ReadingsTold, EngineOf, Requested;
    if drops != [] {
      var n := |drops| - 1;
      RequestsReadNothing(cfg, b, turn, drops[..n]);
      OthersReadNothing(cfg, AllRequested(cfg, b, turn, drops[..n]), turn, EngineOf(drops[n].room, turn.engines),
                        Some(drops[n]), turn.now);
    }
  }

  lemma ATurnReads(cfg: Config, b: Box, step: Step)
    ensures ReadingsTold(Toured(cfg, Begun(b, step), step.turn, step.drops).journal)
            == ReadingsTold(b.journal)
               + if step.turn.failing != TheReading
                 then [(step.turn.now, WithAllocator(cfg, Begun(b, step), step.turn))] else []
  {
    hide ReadingsTold, RollingRaises, Resumed, AllRequested, Periodic, Rolled, WithAllocator, Requested;
    var b0, turn := Begun(b, step), step.turn;
    var b1 := Seen(cfg, b0, turn);
    var b2 := Resumed(cfg, b1, turn);
    ReadingsMore(b.journal, Reading(turn.now, WithAllocator(cfg, b0, turn)));
    OthersReadNothing(cfg, b1, turn, None, None, 0);
    RequestsReadNothing(cfg, b2, turn, step.drops);
    OthersReadNothing(cfg, AllRequested(cfg, b2, turn, step.drops), turn, None, None, 0);
  }

  /** Over every run the log tells every reading that went through, in order, and whether the
      allocator's counters are in it. */
  lemma {:induction false} TheLogTellsTheReadings(cfg: Config, start: real, steps: seq<Step>)
    ensures ReadingsTold(Run(cfg, start, steps).journal) == ReadingsMade(cfg, start, steps)
  {
    hide ReadingsTold, Toured, WithAllocator, Begun;
    if steps == [] {
      NothingRead();
    } else {
      var n := |steps| - 1;
      TheLogTellsTheReadings(cfg, start, steps[..n]);
      ATurnReads(cfg, Run(cfg, start, steps[..n]), steps[n]);
    }
  }

  lemma NothingRead()
    ensures ReadingsTold([]) == []
  {
  }

  // ---- the sweep of old captures ---------------------------------------------

  /** The turn of the i-th step gets as far as its captures; it sweeps. */
  predicate CapturesAt(cfg: Config, start: real, steps: seq<Step>, i: nat)
    requires i < |steps|
  {
    Captures(cfg, At(cfg, start, steps, i), steps[i].turn)
  }

  predicate SweepsAt(cfg: Config, start: real, steps: seq<Step>, i: nat)
    requires i < |steps|
  {
    Sweeps(cfg, At(cfg, start, steps, i), steps[i].turn)
  }

  /** From the i-th step on, no turn of another day gets as far as its captures. */
  ghost predicate OneDay(cfg: Config, start: real, steps: seq<Step>, i: nat) {
    forall k :: i <= k < |steps| && CapturesAt(cfg, start, steps, k) ==> steps[k].turn.day == steps[i].turn.day
  }

  lemma EarlierAt(cfg: Config, start: real, steps: seq<Step>, n: nat, i: nat)
    requires i < n <= |steps|
    ensures At(cfg, start, steps[..n], i) == At(cfg, start, steps, i) && steps[..n][i] == steps[i]
  {
    assert steps[..n][..i] == steps[..i];
  }

  /** From a sweep on, the day noted stays through that day. */
  lemma {:induction false} DayStaysNoted(cfg: Config, start: real, steps: seq<Step>, i: nat)
    requires i < |steps| && CapturesAt(cfg, start, steps, i) && OneDay(cfg, start, steps, i)
    ensures Run(cfg, start, steps).sweptDay == Some(steps[i].turn.day)
  {
    hide Captures, Toured, Begun;
    var last := |steps| - 1;
    var early := steps[..last];
    NotedDay(cfg, Run(cfg, start, early), steps[last]);
    if i < last {
      forall k | i <= k < last
        ensures CapturesAt(cfg, start, early, k) == CapturesAt(cfg, start, steps, k) && early[k] == steps[k]
      {
        EarlierAt(cfg, start, steps, last, k);
      }
      DayStaysNoted(cfg, start, early, i);
    }
  }

  lemma NotedDay(cfg: Config, b: Box, step: Step)
    ensures Toured(cfg, Begun(b, step), step.turn, step.drops).sweptDay
            == if Captures(cfg, Begun(b, step), step.turn) then Some(step.turn.day) else b.sweptDay
    ensures Begun(b, step).sweptDay == b.sweptDay
  {
    hide RollingRaises, Resumed, AllRequested, Periodic, Rolled;
  }

  /** The turn before this one that got as far as its captures was of that day. */
  ghost predicate LastDayIs(cfg: Config, start: real, steps: seq<Step>, i: nat, day: int)
    requires i <= |steps|
  {
    exists j :: 0 <= j < i && CapturesAt(cfg, start, steps, j) && steps[j].turn.day == day
                && forall k :: j < k < i ==> !CapturesAt(cfg, start, steps, k)
  }

  lemma {:induction false} SweptDayIs(cfg: Config, start: real, steps: seq<Step>, day: int)
    ensures Run(cfg, start, steps).sweptDay == Some(day) <==> LastDayIs(cfg, start, steps, |steps|, day)
  {
    hide Captures, Toured, Begun;
    if steps != [] {
      var n := |steps| - 1;
      var early := steps[..n];
      SweptDayIs(cfg, start, early, day);
      NotedDay(cfg, Run(cfg, start, early), steps[n]);
      forall k | 0 <= k < n
        ensures CapturesAt(cfg, start, early, k) == CapturesAt(cfg, start, steps, k) && early[k] == steps[k]
      {
        EarlierAt(cfg, start, steps, n, k);
      }
      assert CapturesAt(cfg, start, steps, n) == Captures(cfg, Begun(Run(cfg, start, early), steps[n]), steps[n].turn);
      if CapturesAt(cfg, start, steps, n) {
        assert LastDayIs(cfg, start, steps, |steps|, day) <==> steps[n].turn.day == day by {
          LastIsTheLast(cfg, start, steps, day);
        }
      } else {
        SameLastDay(cfg, start, steps, day);
      }
    }
  }

  lemma LastIsTheLast(cfg: Config, start: real, steps: seq<Step>, day: int)
    requires steps != [] && CapturesAt(cfg, start, steps, |steps| - 1)
    ensures LastDayIs(cfg, start, steps, |steps|, day) <==> steps[|steps| - 1].turn.day == day
  {
    hide CapturesAt;
    var n := |steps| - 1;
    if LastDayIs(cfg, start, steps, |steps|, day) {
      var j :| 0 <= j < |steps| && CapturesAt(cfg, start, steps, j) && steps[j].turn.day == day
               && forall k :: j < k < |steps| ==> !CapturesAt(cfg, start, steps, k);
      assert j == n;
    }
  }

  lemma SameLastDay(cfg: Config, start: real, steps: seq<Step>, day: int)
    requires steps != [] && !CapturesAt(cfg, start, steps, |steps| - 1)
    requires forall k :: 0 <= k < |steps| - 1 ==>
               && CapturesAt(cfg, start, steps[..|steps| - 1], k) == CapturesAt(cfg, start, steps, k)
               && steps[..|steps| - 1][k] == steps[k]
    ensures LastDayIs(cfg, start, steps, |steps|, day)
            <==> LastDayIs(cfg, start, steps[..|steps| - 1], |steps| - 1, day)
  {
    hide CapturesAt;
    var n, early := |steps| - 1, steps[..|steps| - 1];
    if LastDayIs(cfg, start, early, n, day) {
      var j :| 0 <= j < n && CapturesAt(cfg, start, early, j) && early[j].turn.day == day
               && forall k :: j < k < n ==> !CapturesAt(cfg, start, early, k);
      assert CapturesAt(cfg, start, steps, j) && steps[j].turn.day == day;
    }
    if LastDayIs(cfg, start, steps, |steps|, day) {
      var j :| 0 <= j < |steps| && CapturesAt(cfg, start, steps, j) && steps[j].turn.day == day
               && forall k :: j < k < |steps| ==> !CapturesAt(cfg, start, steps, k);
      assert CapturesAt(cfg, start, early, j) && early[j].turn.day == day;
    }
  }

  /** A turn sweeps if and only if it gets as far as its captures and the one before it that
      did was not of its day. */
  lemma ATurnSweepsIff(cfg: Config, start: real, steps: seq<Step>, i: nat)
    requires i < |steps|
    ensures SweepsAt(cfg, start, steps, i)
            <==> CapturesAt(cfg, start, steps, i)
                 && !LastDayIs(cfg, start, steps[..i], i, steps[i].turn.day)
  {
    hide Run, Captures;
    SweptDayIs(cfg, start, steps[..i], steps[i].turn.day);
  }

  /** A sweep that raises is not tried again: the turns of a day from the one that notes it
      on hold a sweep that goes through if and only if that first one does. */
  lemma ADayIsSweptIff(cfg: Config, start: real, steps: seq<Step>, i: nat)
    requires i < |steps| && SweepsAt(cfg, start, steps, i) && OneDay(cfg, start, steps, i)
    ensures (exists k :: i <= k < |steps| && SweepsAt(cfg, start, steps, k) && steps[k].turn.failing != TheSweep)
            <==> steps[i].turn.failing != TheSweep
    ensures forall k :: i < k < |steps| ==> !SweepsAt(cfg, start, steps, k)
  {
    hide Run, Captures, Begun;
    forall k | i < k < |steps|
      ensures !SweepsAt(cfg, start, steps, k)
    {
      var early := steps[..k];
      forall n | i <= n < k
        ensures CapturesAt(cfg, start, early, n) == CapturesAt(cfg, start, steps, n) && early[n] == steps[n]
      {
        EarlierAt(cfg, start, steps, k, n);
      }
      DayStaysNoted(cfg, start, early, i);
      NotedDay(cfg, Run(cfg, start, early), steps[k]);
    }
  }

  // ---- the rolling profiler beside the game ----------------------------------

  /** The turn asks a running profiler to stop, in vain. */
  predicate StopFails(cfg: Config, b: Box, turn: Turn) {
    cfg.rolling && turn.failing != TheReading && R.FailsStop(b.rolling, Followed(turn), turn.stop)
  }

  /** Only the rolling part of a turn touches the profilers. */
  lemma ATurnRolls(cfg: Config, b: Box, turn: Turn, drops: seq<D.Drop>)
    ensures Toured(cfg, b, turn, drops).rolling
            == if turn.failing == TheReading then b.rolling else Rolled(cfg, b, turn)
  {
    hide Rolled, Captures, AllRequested, Resumed, Periodic;
    var resumed := Resumed(cfg, Seen(cfg, b, turn), turn);
    OthersKeepRolling(cfg, Seen(cfg, b, turn), turn);
    RequestsKeepRolling(cfg, resumed, turn, drops);
    OthersKeepRolling(cfg, AllRequested(cfg, resumed, turn, drops), turn);
  }

  lemma OthersKeepRolling(cfg: Config, b: Box, turn: Turn)
    ensures Resumed(cfg, b, turn).rolling == b.rolling && Periodic(cfg, b, turn).rolling == b.rolling
  {
    hide EngineOf;
  }

  lemma {:induction false} RequestsKeepRolling(cfg: Config, b: Box, turn: Turn, drops: seq<D.Drop>)
    ensures AllRequested(cfg, b, turn, drops).rolling == b.rolling
  {
    hide EngineOf;
    if drops != [] {
      RequestsKeepRolling(cfg, b, turn, drops[..|drops| - 1]);
    }
  }

  lemma {:induction false} MeanwhileKeeps(b: R.Box, events: seq<Event>)
    requires R.Sound(b)
    ensures R.Sound(Meanwhile(b, events)) && (R.NoStray(b) ==> R.NoStray(Meanwhile(b, events)))
  {
    hide R.Sound, R.NoStray, R.After;
    if events != [] {
      var early, last := events[..|events| - 1], StepOf(events[|events| - 1]);
      MeanwhileKeeps(b, early);
      R.StepKeepsSound(Meanwhile(b, early), last);
      if R.NoStray(b) {
        R.OneStep(Meanwhile(b, early), last);
      }
    }
  }

  /** One turn, and what happened before it. */
  lemma ATurnOfTheProfiler(cfg: Config, b: Box, step: Step)
    requires R.Sound(b.rolling)
    ensures var b0 := Begun(b, step);
            var after := Toured(cfg, b0, step.turn, step.drops);
            && R.Sound(after.rolling)
            && (R.NoStray(b.rolling) ==> (R.NoStray(after.rolling) <==> !StopFails(cfg, b0, step.turn)))
  {
    hide Toured, R.Sound, R.NoStray, R.Next, R.FailsStop, R.After, Followed;
    var b0 := Begun(b, step);
    MeanwhileKeeps(b.rolling, step.before);
    var turn := step.turn;
    ATurnRolls(cfg, b0, turn, step.drops);
    R.StaysSound(b0.rolling, Followed(turn), turn.stop, turn.launches);
    if R.NoStray(b0.rolling) {
      R.NoStrayIff(b0.rolling, Followed(turn), turn.stop, turn.launches);
    }
  }

  ghost predicate NeverAStray(cfg: Config, start: real, steps: seq<Step>) {
    forall n :: 0 <= n <= |steps| ==> R.NoStray(Run(cfg, start, steps[..n]).rolling)
  }

  ghost predicate EveryStopWorks(cfg: Config, start: real, steps: seq<Step>) {
    forall i :: 0 <= i < |steps| ==> !StopFails(cfg, At(cfg, start, steps, i), steps[i].turn)
  }

  lemma RunFrom(cfg: Config, start: real, steps: seq<Step>)
    ensures Run(cfg, start, []).rolling == R.EMPTY && R.Sound(R.EMPTY) && R.NoStray(R.EMPTY)
    ensures steps != [] ==>
              var m := |steps| - 1;
              Run(cfg, start, steps) == Toured(cfg, At(cfg, start, steps, m), steps[m].turn, steps[m].drops)
  {
  }

  /** In every run of the service, no profiler but the one in hand is ever left running if
      and only if no turn asks a running one to stop in vain. */
  lemma {:induction false} NoProfilerIsLeftIff(cfg: Config, start: real, steps: seq<Step>)
    ensures R.Sound(Run(cfg, start, steps).rolling)
    ensures NeverAStray(cfg, start, steps) <==> EveryStopWorks(cfg, start, steps)
  {
    hide Run, Toured, Begun, StopFails, R.Sound, R.NoStray;
    RunFrom(cfg, start, steps);
    if steps == [] {
      assert steps[..0] == [];
    } else {
      var m := |steps| - 1;
      var early := steps[..m];
      NoProfilerIsLeftIff(cfg, start, early);
      ATurnOfTheProfiler(cfg, Run(cfg, start, early), steps[m]);
      assert forall n :: 0 <= n <= m ==> early[..n] == steps[..n];
      assert steps[..m + 1] == steps;
      assert NeverAStray(cfg, start, steps)
        <==> NeverAStray(cfg, start, early) && R.NoStray(Run(cfg, start, steps).rolling);
      assert EveryStopWorks(cfg, start, steps)
        <==> EveryStopWorks(cfg, start, early) && !StopFails(cfg, At(cfg, start, steps, m), steps[m].turn);
      assert NeverAStray(cfg, start, early) ==> R.NoStray(Run(cfg, start, early[..m]).rolling);
      assert early[..m] == early;
    }
  }

  /** When the service is not to record, it launches no profiler in any run. */
  lemma {:induction false} NoProfilerWhenOff(cfg: Config, start: real, steps: seq<Step>)
    requires !cfg.rolling
    ensures Run(cfg, start, steps).rolling == R.EMPTY
  {
    hide Toured, R.Next;
    if steps != [] {
      var n := |steps| - 1;
      NoProfilerWhenOff(cfg, start, steps[..n]);
      NothingHappens(steps[n].before);
      var b := Begun(Run(cfg, start, steps[..n]), steps[n]);
      ATurnRolls(cfg, b, steps[n].turn, steps[n].drops);
    }
  }

  lemma {:induction false} NothingHappens(events: seq<Event>)
    ensures Meanwhile(R.EMPTY, events) == R.EMPTY
  {
    if events != [] {
      NothingHappens(events[..|events| - 1]);
    }
  }

  /** After a turn that got as far as its captures, with every stop so far having worked, the
      profilers that run are the one on the first engine, or none at rest. */
  lemma TheProfilerFollowsTheGame(cfg: Config, start: real, steps: seq<Step>, k: nat)
    requires cfg.rolling && steps != [] && EveryStopWorks(cfg, start, steps)
    requires CapturesAt(cfg, start, steps, |steps| - 1)
    ensures var r := Run(cfg, start, steps).rolling;
            var wanted := Followed(steps[|steps| - 1].turn);
            && (forall e :: FirstFit(steps[|steps| - 1].turn.engines, None, e) ==> wanted == Some(e.pid))
            && ((forall e :: e in steps[|steps| - 1].turn.engines ==> e.threads == 0) ==> wanted == None)
            && r.followed == wanted && R.Running(r) == wanted.Some?
            && (k < |r.perfs| && r.perfs[k].life == R.Alive ==>
                  r.current == Some(k) && wanted == Some(r.perfs[k].target))
  {
    hide Run, Toured, Begun, StopFails, Followed;
    var m := |steps| - 1;
    RunFrom(cfg, start, steps);
    NoProfilerIsLeftIff(cfg, start, steps);
    assert steps[..|steps|] == steps;
    var b := At(cfg, start, steps, m);
    ATurnRolls(cfg, b, steps[m].turn, steps[m].drops);
    WhoIsFollowed(steps[m].turn);
  }

  lemma WhoIsFollowed(turn: Turn)
    ensures forall e :: FirstFit(turn.engines, None, e) ==> Followed(turn) == Some(e.pid)
    ensures (forall e :: e in turn.engines ==> e.threads == 0) ==> Followed(turn) == None
  {
    hide EngineOf;
    EngineOfIs(None, turn.engines);
    forall e | FirstFit(turn.engines, None, e)
      ensures EngineOf(None, turn.engines) == Some(e)
    {
      OneFirstFit(turn.engines, None, e, EngineOf(None, turn.engines).value);
    }
  }

  lemma OneFirstFit(engines: seq<Engine>, room: Option<int>, e: Engine, f: Engine)
    requires FirstFit(engines, room, e) && FirstFit(engines, room, f)
    ensures e == f
  {
    var j :| 0 <= j < |engines| && engines[j] == e && Fits(e, room)
             && forall k :: 0 <= k < j ==> !Fits(engines[k], room);
    var i :| 0 <= i < |engines| && engines[i] == f && Fits(f, room)
             && forall k :: 0 <= k < i ==> !Fits(engines[k], room);
    assert !(i < j) && !(j < i);
  }

  // ---- when a drop is replaced -----------------------------------------------

  ghost predicate NoneReplaced(ledger: seq<Fate>) {
    forall i :: 0 <= i < |ledger| ==> !ledger[i].Replaced?
  }

  /** The new drop has an engine, a capture runs when it asks, and another drop waits. */
  predicate Crowded(b: Box, turn: Turn, d: D.Drop) {
    EngineOf(d.room, turn.engines).Some? && Busy(Asked(b, turn)) && b.waiting.Some?
  }

  /** No drop of some finds the slot taken when it asks. */
  ghost predicate NoneCrowded(cfg: Config, b: Box, turn: Turn, drops: seq<D.Drop>) {
    forall k :: 0 <= k < |drops| ==> !Crowded(AllRequested(cfg, b, turn, drops[..k]), turn, drops[k])
  }

  lemma OneFate(ledger: seq<Fate>, f: Fate)
    ensures NoneReplaced(ledger + [f]) <==> NoneReplaced(ledger) && !f.Replaced?
    ensures ledger + [] == ledger
  {
    var more := ledger + [f];
    assert more[|ledger|] == f;
    assert forall i :: 0 <= i < |ledger| ==> more[i] == ledger[i];
  }

  lemma RequestReplacesIff(cfg: Config, b: Box, turn: Turn, d: D.Drop, asked: Instant)
    ensures var after := Requested(cfg, b, turn, EngineOf(d.room, turn.engines), Some(d), asked).0;
            NoneReplaced(after.ledger) <==> NoneReplaced(b.ledger) && !Crowded(b, turn, d)
  {
    hide NoneReplaced, EngineOf;
    forall f: Fate
      ensures NoneReplaced(b.ledger + [f]) <==> NoneReplaced(b.ledger) && !f.Replaced?
    {
      OneFate(b.ledger, f);
    }
    assert b.ledger + [] == b.ledger;
  }

  /** Taking up the drop that waits replaces none, and so does the periodic capture. */
  lemma OthersReplaceNone(cfg: Config, b: Box, turn: Turn)
    ensures NoneReplaced(Resumed(cfg, b, turn).ledger) <==> NoneReplaced(b.ledger)
    ensures Periodic(cfg, b, turn).ledger == b.ledger
  {
    hide NoneReplaced, EngineOf;
    forall f: Fate
      ensures NoneReplaced(b.ledger + [f]) <==> NoneReplaced(b.ledger) && !f.Replaced?
    {
      OneFate(b.ledger, f);
    }
    assert b.ledger + [] == b.ledger;
  }

  lemma OneMoreCrowded(cfg: Config, b: Box, turn: Turn, drops: seq<D.Drop>)
    requires drops != []
    ensures var n := |drops| - 1;
            NoneCrowded(cfg, b, turn, drops)
            <==> NoneCrowded(cfg, b, turn, drops[..n])
                 && !Crowded(AllRequested(cfg, b, turn, drops[..n]), turn, drops[n])
  {
    hide Crowded, AllRequested;
    var n := |drops| - 1;
    assert forall k :: 0 <= k < n ==> drops[..n][..k] == drops[..k];
  }

  lemma {:induction false} RequestsReplaceIff(cfg: Config, b: Box, turn: Turn, drops: seq<D.Drop>)
    ensures NoneReplaced(AllRequested(cfg, b, turn, drops).ledger)
            <==> NoneReplaced(b.ledger) && NoneCrowded(cfg, b, turn, drops)
  {
    hide NoneReplaced, Crowded, Requested, EngineOf;
    if drops != [] {
      hide NoneCrowded;
      var n := |drops| - 1;
      RequestsReplaceIff(cfg, b, turn, drops[..n]);
      RequestReplacesIff(cfg, AllRequested(cfg, b, turn, drops[..n]), turn, drops[n], turn.now);
      OneMoreCrowded(cfg, b, turn, drops);
    }
  }

  /** In this turn, with these drops: they ask after the drop that waits has been seen to. */
  ghost predicate NeverCrowded(cfg: Config, b: Box, turn: Turn, drops: seq<D.Drop>) {
    NoneCrowded(cfg, Resumed(cfg, Seen(cfg, b, turn), turn), turn, drops)
  }

  /** A turn replaces a drop if and only if it gets as far as its captures and one of its
      drops finds the slot taken. */
  lemma ATurnReplacesIff(cfg: Config, b: Box, step: Step)
    ensures var b0 := Begun(b, step);
            NoneReplaced(Toured(cfg, b0, step.turn, step.drops).ledger)
            <==> NoneReplaced(b.ledger)
                 && (Captures(cfg, b0, step.turn) ==> NeverCrowded(cfg, b0, step.turn, step.drops))
  {
    hide NoneReplaced, NoneCrowded, Resumed, AllRequested, Periodic, RollingRaises, Rolled;
    var b0 := Begun(b, step);
    var b1 := Seen(cfg, b0, step.turn);
    var b2 := Resumed(cfg, b1, step.turn);
    OthersReplaceNone(cfg, b1, step.turn);
    RequestsReplaceIff(cfg, b2, step.turn, step.drops);
    OthersReplaceNone(cfg, AllRequested(cfg, b2, step.turn, step.drops), step.turn);
  }

  /** The i-th turn gets as far as its captures, and one of its drops has an engine, asks
      while a capture runs and finds another drop waiting. */
  ghost predicate CrowdedAt(cfg: Config, start: real, steps: seq<Step>, i: nat)
    requires i < |steps|
  {
    CapturesAt(cfg, start, steps, i) && !NeverCrowded(cfg, At(cfg, start, steps, i), steps[i].turn, steps[i].drops)
  }

  /** In any run, a drop is replaced if and only if, in some turn that gets as far as its
      captures, a drop with an engine asks while a capture runs and another drop waits. */
  lemma {:induction false} ReplacedIff(cfg: Config, start: real, steps: seq<Step>)
    ensures NoneReplaced(Run(cfg, start, steps).ledger)
            <==> forall i :: 0 <= i < |steps| ==> !CrowdedAt(cfg, start, steps, i)
  {
    hide NoneReplaced, NeverCrowded, Captures, Toured, Begun;
    if steps == [] {
      assert NoneReplaced([]) by { NothingReplaced(); }
    } else {
      var n := |steps| - 1;
      var early := steps[..n];
      ReplacedIff(cfg, start, early);
      forall i | 0 <= i < n
        ensures CrowdedAt(cfg, start, early, i) == CrowdedAt(cfg, start, steps, i)
      {
        EarlierAt(cfg, start, steps, n, i);
      }
      ATurnReplacesIff(cfg, Run(cfg, start, early), steps[n]);
      assert At(cfg, start, steps, n) == Begun(Run(cfg, start, early), steps[n]);
      assert (forall i :: 0 <= i < |steps| ==> !CrowdedAt(cfg, start, steps, i))
        <==> (forall i :: 0 <= i < n ==> !CrowdedAt(cfg, start, early, i)) && !CrowdedAt(cfg, start, steps, n);
    }
  }

  lemma NothingReplaced()
    ensures NoneReplaced([])
  {
  }

  /** A turn in which the capture in flight goes on and no sweep is due after the first. */
  function Still(now: Instant, t: real, engine: Engine): Turn {
    Turn(now, t, 0, true, [engine], _ => false, Nothing, R.Exits, true)
  }

  /** A run from the start in which a second drop put off takes the place of the first: that
      one is in the ledger as replaced, no capture is made of it, and no line of the log
      tells how it ended. */
  lemma ADropIsReplaced(cfg: Config, start: real, engine: Engine, one: D.Drop, two: D.Drop, three: D.Drop)
    requires engine.threads > 0 && cfg.profilePeriod > 0.0
    requires one.room.None? && two.room.None? && three.room.None? && one != two && three != two
    ensures var steps := [Step([], Still(1, start, engine), [one]), Step([], Still(2, start, engine), [two]),
                          Step([], Still(3, start, engine), [three])];
            var b := Run(cfg, start, steps);
            && b.ledger == [Submitted(one, 1, 1), Replaced(two, 2, 3)] && b.waiting == Some(Waiting(three, engine, 3))
            && two !in CapturedDrops(b.captures) && forall e :: e in Told(b.journal) ==> e.drop != two
  {
    hide CapturedDrops, Told, SubmittedDrops, Ends, Run, Toured, EndsOf;
    var s1, s2, s3 := Step([], Still(1, start, engine), [one]), Step([], Still(2, start, engine), [two]),
                      Step([], Still(3, start, engine), [three]);
    RunMore(cfg, start, [], s1);
    RunMore(cfg, start, [s1], s2);
    RunMore(cfg, start, [s1, s2], s3);
    assert [] + [s1] == [s1] && [s1] + [s2] == [s1, s2] && [s1, s2] + [s3] == [s1, s2, s3];
    OneDrop(cfg, Started(start), s1.turn, one, engine);
    OneDrop(cfg, Run(cfg, start, [s1]), s2.turn, two, engine);
    OneDrop(cfg, Run(cfg, start, [s1, s2]), s3.turn, three, engine);
    var b := Run(cfg, start, [s1, s2, s3]);
    assert b.ledger == [Submitted(one, 1, 1), Replaced(two, 2, 3)];
    HowDropsEnd(cfg, start, [s1, s2, s3]);
    WhatIsTold(one, two);
  }

  lemma RunMore(cfg: Config, start: real, steps: seq<Step>, step: Step)
    ensures Run(cfg, start, []) == Started(start)
    ensures Run(cfg, start, steps + [step])
            == Toured(cfg, Begun(Run(cfg, start, steps), step), step.turn, step.drops)
  {
    assert (steps + [step])[..|steps|] == steps;
  }

  lemma WhatIsTold(one: D.Drop, two: D.Drop)
    ensures var ledger := [Submitted(one, 1, 1), Replaced(two, 2, 3)];
            SubmittedDrops(ledger) == [one] && Ends(ledger) == [Ending(one, 1, AsCapture)]
  {
    var first := [] + [Submitted(one, 1, 1)];
    EndOne([], Submitted(one, 1, 1));
    EndOne(first, Replaced(two, 2, 3));
    assert first + [Replaced(two, 2, 3)] == [Submitted(one, 1, 1), Replaced(two, 2, 3)];
  }

  /** Such a turn with one drop: it is submitted when nothing runs, put off otherwise. */
  lemma OneDrop(cfg: Config, b: Box, turn: Turn, d: D.Drop, engine: Engine)
    requires engine.threads > 0 && d.room.None? && turn.engines == [engine] && turn.failing == Nothing
    requires turn.t - b.lastProfile < cfg.profilePeriod && forall n :: !turn.done(n)
    requires (b.waiting.Some? ==> Busy(b)) && !RollingRaises(cfg, b, turn)
    ensures var after := Toured(cfg, b, turn, [d]);
            && after.lastProfile == b.lastProfile && after.finished == b.finished
            && (!Busy(b) ==>
                  && after.current == Some(|b.captures|) && |after.captures| == |b.captures| + 1
                  && after.waiting == b.waiting && after.ledger == b.ledger + [Submitted(d, turn.now, turn.now)])
            && (Busy(b) ==>
                  && after.current == b.current && after.captures == b.captures
                  && after.waiting == Some(Waiting(d, engine, turn.now))
                  && after.ledger == b.ledger + Displaced(b.waiting, turn.now))
  {
    hide Requested, Resumed, RollingRaises, Rolled;
    assert WithThreads([engine]) == [engine];
    assert [d][..0] == [];
    var b1 := Seen(cfg, b, turn);
    NothingResumed(cfg, b1, turn);
    var b2 := Resumed(cfg, b1, turn);
    assert AllRequested(cfg, b2, turn, []) == b2;
    assert AllRequested(cfg, b2, turn, [d]) == Requested(cfg, b2, turn, Some(engine), Some(d), turn.now).0;
    OneRequest(cfg, b2, turn, d, engine);
  }

  lemma NothingResumed(cfg: Config, b: Box, turn: Turn)
    requires (forall n :: !turn.done(n)) && (b.waiting.Some? ==> Busy(b))
    ensures Resumed(cfg, b, turn).(asks := 0) == b.(asks := 0)
  {
  }

  lemma OneRequest(cfg: Config, b: Box, turn: Turn, d: D.Drop, engine: Engine)
    requires forall n :: !turn.done(n)
    ensures var after := Requested(cfg, b, turn, Some(engine), Some(d), turn.now).0;
            && after.lastProfile == b.lastProfile && after.finished == b.finished
            && (!Busy(b) ==>
                  && after.current == Some(|b.captures|) && |after.captures| == |b.captures| + 1
                  && after.waiting == b.waiting && after.ledger == b.ledger + [Submitted(d, turn.now, turn.now)])
            && (Busy(b) ==>
                  && after.current == b.current && after.captures == b.captures
                  && after.waiting == Some(Waiting(d, engine, turn.now))
                  && after.ledger == b.ledger + Displaced(b.waiting, turn.now))
  {
  }
}
