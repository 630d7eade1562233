/** The life of the black box: its loop of turns, and what the trigger and the scheduler
    keep together (control/nel3ab_control/boite_noire/service.py, main). */
module ServiceLife {
  import opened Common
  import opened Service
  import opened ServiceRuns
  import D = Declencheur
  import R = Roulant
  import S = Suiveur

  /** One round of the loop: what happened to the rolling profilers before it, the turn as
      the outside makes it, and what the follower finds at its path. */
  datatype Round = Round(before: seq<Event>, turn: Turn, look: S.Look)

  /** What a life amounts to: the steps of the scheduler, those of the trigger, the polls of
      the follower, and the waits between turns. */
  datatype Life = Life(steps: seq<Step>, ops: seq<D.Op>, looks: seq<S.Look>, waits: seq<real>)

  const UNBORN := Life([], [], [], [])

  type Decoder = seq<Byte> -> Option<D.Line>

  function Hears(lines: seq<D.Line>): seq<D.Op> {
    if lines == [] then [] else Hears(lines[..|lines| - 1]) + [D.Hear(lines[|lines| - 1])]
  }

  /** The lines that the follower hands on in a round. */
  function LinesOf(life: Life, look: S.Look, decode: Decoder): seq<D.Line> {
    S.Decoded(S.Polled(S.Followed(S.FRESH, life.looks).1, look).0, decode)
  }

  function Empty(round: Round): Step {
    Step(round.before, round.turn, [])
  }

  /** The turn raises: the reading, the rolling profiler or the sweep does. */
  predicate Raises(cfg: Config, b: Box, turn: Turn) {
    !Captures(cfg, b, turn) || (Sweeps(cfg, b, turn) && turn.failing == TheSweep)
  }

  /** How long the loop waits after a turn: as at rest when it raised. */
  function WaitAfter(cfg: Config, b: Box, turn: Turn): real {
    if Raises(cfg, b, turn) || turn.engines == [] then cfg.stepAtRest else cfg.stepInGame
  }

  /** One more round: it hears the lines of its poll unless the reading raises, and evaluates
      when it gets as far as its captures. */
  function Lived(cfg: Config, s: D.Settings, start: real, life: Life, round: Round, decode: Decoder): Life {
    var turn := round.turn;
    var b := Begun(Run(cfg, start, life.steps), Empty(round));
    var waits := life.waits + [WaitAfter(cfg, b, turn)];
    if turn.failing == TheReading then life.(steps := life.steps + [Empty(round)], waits := waits)
    else
      var ops := life.ops + Hears(LinesOf(life, round.look, decode));
      var looks := life.looks + [round.look];
      if !Captures(cfg, b, turn) then Life(life.steps + [Empty(round)], ops, looks, waits)
      else
        var st := D.After(s, ops);
        var drops := D.Evaluated(s, st, st.rooms, turn.now).drops;
        Life(life.steps + [Step(round.before, turn, drops)], ops + [D.Evaluate(turn.now)], looks, waits)
  }

  function LifeOf(cfg: Config, s: D.Settings, start: real, rounds: seq<Round>, decode: Decoder): Life {
    if rounds == [] then UNBORN
    else Lived(cfg, s, start, LifeOf(cfg, s, start, rounds[..|rounds| - 1], decode), rounds[|rounds| - 1], decode)
  }

  // ---- the loop --------------------------------------------------------------

  lemma {:induction false} HearingAll(s: D.Settings, ops: seq<D.Op>, lines: seq<D.Line>)
    ensures D.After(s, ops + Hears(lines)) == HeardAll(D.After(s, ops), lines)
  {
    hide D.Heard;
    if lines == [] {
      assert ops + Hears(lines) == ops;
    } else {
      var early, last := lines[..|lines| - 1], D.Hear(lines[|lines| - 1]);
      HearingAll(s, ops, early);
      assert ops + Hears(lines) == ops + Hears(early) + [last];
      AfterMore(s, ops + Hears(early), last);
    }
  }

  lemma AfterMore(s: D.Settings, ops: seq<D.Op>, op: D.Op)
    ensures op.Hear? ==> D.After(s, ops + [op]) == D.Heard(D.After(s, ops), op.line)
    ensures op.Evaluate? ==>
              D.After(s, ops + [op]) == D.Evaluated(s, D.After(s, ops), D.After(s, ops).rooms, op.now).state
  {
    assert (ops + [op])[..|ops|] == ops;
  }

  /** The box, the trigger and the follower are where a life leaves them. */
  ghost predicate Follows(boite: BoiteNoire, start: real, life: Life)
    reads boite, boite.roulant, boite.declencheur, boite.suiveur
  {
    && boite.Value() == Run(boite.cfg, start, life.steps)
    && boite.declencheur.Value() == D.After(boite.declencheur.settings, life.ops)
    && boite.suiveur.Value() == S.Followed(S.FRESH, life.looks).1
  }

  /** What happens to the profilers on their own, and by the capture in flight. */
  method Happen(roulant: R.Roulant, events: seq<Event>)
    requires roulant.Valid()
    modifies roulant`perfs
    ensures roulant.Valid() && roulant.Value() == Meanwhile(old(roulant.Value()), events)
  {
    hide R.Sound, R.After, R.Polled;
    var k := 0;
    while k < |events|
      invariant 0 <= k <= |events| && roulant.Valid()
      invariant roulant.Value() == Meanwhile(old(roulant.Value()), events[..k])
    {
      assert events[..k + 1][..k] == events[..k];
      R.StepKeepsSound(roulant.Value(), StepOf(events[k]));
      One(roulant, events[k]);
      k := k + 1;
    }
    assert events[..k] == events;
  }

  method One(roulant: R.Roulant, event: Event)
    requires roulant.Valid()
    modifies roulant`perfs
    ensures roulant.Valid() && roulant.Value() == R.After(old(roulant.Value()), StepOf(event))
  {
    match event
    case Died(k) =>
      if k < |roulant.perfs| && roulant.perfs[k].life == R.Alive {
        roulant.perfs := roulant.perfs[k := roulant.perfs[k].(life := R.Dead)];
      }
    case Looked =>
      if roulant.current.Some? {
        var alive := roulant.Poll();
      }
  }

  /** The loop of the service: one turn after the other, whatever they raise, each followed
      by the wait it asks for, or the one of a machine at rest when it raised. */
  method Veiller(boite: BoiteNoire, ghost start: real, rounds: seq<Round>, decode: Decoder)
    returns (waits: seq<real>)
    requires boite.roulant.Valid() && D.WellFormed(boite.declencheur.Value())
    requires Follows(boite, start, UNBORN)
    modifies boite, boite.suiveur, boite.declencheur, boite.roulant
    ensures boite.roulant.Valid() && D.WellFormed(boite.declencheur.Value())
    ensures var life := LifeOf(boite.cfg, boite.declencheur.settings, start, rounds, decode);
            Follows(boite, start, life) && waits == life.waits
  {
    hide Follows, LifeOf, Lived, D.WellFormed, R.Sound;
    waits := [];
    var k := 0;
    LifeStep(boite.cfg, boite.declencheur.settings, start, rounds, decode, 0);
    while k < |rounds|
      invariant 0 <= k <= |rounds|
      invariant waits == LifeOf(boite.cfg, boite.declencheur.settings, start, rounds[..k], decode).waits
      invariant boite.roulant.Valid() && D.WellFormed(boite.declencheur.Value())
      invariant Follows(boite, start, LifeOf(boite.cfg, boite.declencheur.settings, start, rounds[..k], decode))
    {
      LifeStep(boite.cfg, boite.declencheur.settings, start, rounds, decode, k);
      var pas := UnTour(boite, start, rounds[k], decode,
                        LifeOf(boite.cfg, boite.declencheur.settings, start, rounds[..k], decode));
      waits := waits + [pas];
      k := k + 1;
    }
    assert rounds[..k] == rounds;
  }

  lemma LifeStep(cfg: Config, s: D.Settings, start: real, rounds: seq<Round>, decode: Decoder, k: nat)
    requires k <= |rounds|
    ensures LifeOf(cfg, s, start, rounds[..0], decode) == UNBORN
    ensures k < |rounds| ==>
              LifeOf(cfg, s, start, rounds[..k + 1], decode)
              == Lived(cfg, s, start, LifeOf(cfg, s, start, rounds[..k], decode), rounds[k], decode)
  {
    if k < |rounds| {
      assert rounds[..k + 1][..k] == rounds[..k];
    }
  }

  /** One round of it. */
  method UnTour(boite: BoiteNoire, ghost start: real, round: Round, decode: Decoder, ghost life: Life)
    returns (pas: real)
    requires boite.roulant.Valid() && D.WellFormed(boite.declencheur.Value()) && Follows(boite, start, life)
    modifies boite, boite.suiveur, boite.declencheur, boite.roulant
    ensures boite.roulant.Valid() && D.WellFormed(boite.declencheur.Value())
    ensures var after := Lived(boite.cfg, boite.declencheur.settings, start, life, round, decode);
            Follows(boite, start, after) && life.waits + [pas] == after.waits
  {
    hide R.Sound, Toured, Captures, Sweeps, HeardAll, S.Polled, S.Decoded, D.Evaluated, D.WellFormed, Meanwhile;
    Happen(boite.roulant, round.before);
    var step, drops := boite.Tour(round.turn, round.look, decode);
    RoundOfTheTrigger(boite.declencheur.settings, life, round, decode);
    RunMore(boite.cfg, start, life.steps, Step(round.before, round.turn, drops));
    RunMore(boite.cfg, start, life.steps, Empty(round));
    NoCaptureNoDrops(boite.cfg, Begun(Run(boite.cfg, start, life.steps), Empty(round)), round.turn, drops);
    PollMore(life.looks, round.look);
    return if step.Some? then step.value else boite.cfg.stepAtRest;
  }

  lemma NoCaptureNoDrops(cfg: Config, b: Box, turn: Turn, drops: seq<D.Drop>)
    ensures !Captures(cfg, b, turn) ==> Toured(cfg, b, turn, drops) == Toured(cfg, b, turn, [])
    ensures turn.failing == TheReading ==> !Captures(cfg, b, turn)
  {
    hide Resumed, AllRequested, Periodic, RollingRaises, Rolled;
  }

  lemma PollMore(looks: seq<S.Look>, look: S.Look)
    ensures S.Followed(S.FRESH, looks + [look]).1 == S.Polled(S.Followed(S.FRESH, looks).1, look).1
  {
    assert (looks + [look])[..|looks|] == looks;
  }

  lemma RoundOfTheTrigger(s: D.Settings, life: Life, round: Round, decode: Decoder)
    ensures var heard := life.ops + Hears(LinesOf(life, round.look, decode));
            && D.After(s, heard) == HeardAll(D.After(s, life.ops), LinesOf(life, round.look, decode))
            && D.After(s, heard + [D.Evaluate(round.turn.now)])
               == D.Evaluated(s, D.After(s, heard), D.After(s, heard).rooms, round.turn.now).state
  {
    hide D.After;
    var lines := LinesOf(life, round.look, decode);
    HearingAll(s, life.ops, lines);
    AfterMore(s, life.ops + Hears(lines), D.Evaluate(round.turn.now));
  }

  // ---- from the poll to the trigger ------------------------------------------

  /** The lines heard among what the trigger is given. */
  function LinesIn(ops: seq<D.Op>): seq<D.Line> {
    if ops == [] then []
    else
      var last := ops[|ops| - 1];
      LinesIn(ops[..|ops| - 1]) + if last.Hear? then [last.line] else []
  }

  /** And the instants at which it is asked for its alerts. */
  function JudgedAt(ops: seq<D.Op>): seq<Instant> {
    if ops == [] then []
    else
      var last := ops[|ops| - 1];
      JudgedAt(ops[..|ops| - 1]) + if last.Evaluate? then [last.now] else []
  }

  /** What the polls find: there is one in each round whose reading does not raise. */
  function LooksOf(rounds: seq<Round>): seq<S.Look> {
    if rounds == [] then []
    else
      var last := rounds[|rounds| - 1];
      LooksOf(rounds[..|rounds| - 1]) + if last.turn.failing == TheReading then [] else [last.look]
  }

  /** The instants of the turns that got as far as their captures. */
  function CapturingAt(cfg: Config, start: real, steps: seq<Step>): seq<Instant> {
    if steps == [] then []
    else
      var n := |steps| - 1;
      CapturingAt(cfg, start, steps[..n]) + if CapturesAt(cfg, start, steps, n) then [steps[n].turn.now] else []
  }

  lemma OneMoreOp(ops: seq<D.Op>, op: D.Op)
    ensures LinesIn(ops + [op]) == LinesIn(ops) + if op.Hear? then [op.line] else []
    ensures JudgedAt(ops + [op]) == JudgedAt(ops) + if op.Evaluate? then [op.now] else []
  {
    assert (ops + [op])[..|ops|] == ops;
  }

  lemma {:induction false} LinesOfHears(ops: seq<D.Op>, lines: seq<D.Line>)
    ensures LinesIn(ops + Hears(lines)) == LinesIn(ops) + lines
    ensures JudgedAt(ops + Hears(lines)) == JudgedAt(ops)
  {
    if lines == [] {
      assert ops + Hears(lines) == ops;
    } else {
      var early, last := lines[..|lines| - 1], lines[|lines| - 1];
      LinesOfHears(ops, early);
      assert lines == early + [last];
      assert ops + Hears(lines) == ops + Hears(early) + [D.Hear(last)];
      OneMoreOp(ops + Hears(early), D.Hear(last));
    }
  }

  lemma {:induction false} DecodedInTwo(a: seq<seq<Byte>>, b: seq<seq<Byte>>, decode: Decoder)
    ensures S.Decoded(a + b, decode) == S.Decoded(a, decode) + S.Decoded(b, decode)
  {
    if b == [] {
      assert a + b == a;
    } else {
      DecodedInTwo(a, b[..|b| - 1], decode);
      assert (a + b)[..|a + b| - 1] == a + b[..|b| - 1];
    }
  }

  /** The lines of one more poll come after those of the polls before it. */
  lemma APollMore(looks: seq<S.Look>, look: S.Look, decode: Decoder)
    ensures var st := S.Followed(S.FRESH, looks);
            S.Decoded(S.Followed(S.FRESH, looks + [look]).0, decode)
            == S.Decoded(st.0, decode) + S.Decoded(S.Polled(st.1, look).0, decode)
  {
    hide S.Polled, S.Decoded;
    assert (looks + [look])[..|looks|] == looks;
    DecodedInTwo(S.Followed(S.FRESH, looks).0, S.Polled(S.Followed(S.FRESH, looks).1, look).0, decode);
  }

  lemma ACaptureMore(cfg: Config, start: real, steps: seq<Step>, step: Step)
    ensures CapturingAt(cfg, start, steps + [step])
            == CapturingAt(cfg, start, steps)
               + if Captures(cfg, Begun(Run(cfg, start, steps), step), step.turn) then [step.turn.now] else []
  {
    hide Run, Captures;
    assert (steps + [step])[..|steps|] == steps;
  }

  /** The turns of a life are those of its rounds. */
  ghost predicate SameTurns(steps: seq<Step>, rounds: seq<Round>) {
    && |steps| == |rounds|
    && forall i :: 0 <= i < |steps| ==> steps[i].before == rounds[i].before && steps[i].turn == rounds[i].turn
  }

  /** Over any life of the service: what the trigger hears is what its follower hands on, over
      one poll in each round whose reading does not raise, whatever else raises; and it is asked
      for its alerts at the instants of the turns that got as far as their captures. */
  lemma {:induction false} EveryLineIsHeard(cfg: Config, s: D.Settings, start: real, rounds: seq<Round>,
                                            decode: Decoder)
    ensures var life := LifeOf(cfg, s, start, rounds, decode);
            && LinesIn(life.ops) == S.Decoded(S.Followed(S.FRESH, LooksOf(rounds)).0, decode)
            && JudgedAt(life.ops) == CapturingAt(cfg, start, life.steps)
            && life.looks == LooksOf(rounds)
            && SameTurns(life.steps, rounds)
  {
    hide Lived, S.Decoded, S.Polled, LinesIn, JudgedAt, CapturingAt;
    if rounds == [] {
      NothingHeardYet(cfg, start, decode);
    } else {
      var early, round := rounds[..|rounds| - 1], rounds[|rounds| - 1];
      EveryLineIsHeard(cfg, s, start, early, decode);
      ARoundIsHeard(cfg, s, start, LifeOf(cfg, s, start, early, decode), early, round, decode);
      assert rounds == early + [round];
    }
  }

  lemma NothingHeardYet(cfg: Config, start: real, decode: Decoder)
    ensures LinesIn([]) == S.Decoded(S.Followed(S.FRESH, []).0, decode)
    ensures JudgedAt([]) == CapturingAt(cfg, start, [])
  {
  }

  lemma ARoundIsHeard(cfg: Config, s: D.Settings, start: real, life: Life, early: seq<Round>, round: Round,
                      decode: Decoder)
    requires LinesIn(life.ops) == S.Decoded(S.Followed(S.FRESH, life.looks).0, decode)
    requires JudgedAt(life.ops) == CapturingAt(cfg, start, life.steps)
    requires life.looks == LooksOf(early) && SameTurns(life.steps, early)
    ensures var after := Lived(cfg, s, start, life, round, decode);
            && LinesIn(after.ops) == S.Decoded(S.Followed(S.FRESH, after.looks).0, decode)
            && JudgedAt(after.ops) == CapturingAt(cfg, start, after.steps)
            && after.looks == LooksOf(early + [round]) && SameTurns(after.steps, early + [round])
  {
    hide Lived, S.Decoded, S.Followed, LinesIn, JudgedAt, CapturingAt, SameTurns, LooksOf;
    ARoundHears(cfg, s, start, life, round, decode);
    ARoundJudges(cfg, s, start, life, round, decode);
    ARoundLooks(cfg, s, start, life, early, round, decode);
  }

  lemma ARoundHears(cfg: Config, s: D.Settings, start: real, life: Life, round: Round, decode: Decoder)
    requires LinesIn(life.ops) == S.Decoded(S.Followed(S.FRESH, life.looks).0, decode)
    ensures var after := Lived(cfg, s, start, life, round, decode);
            LinesIn(after.ops) == S.Decoded(S.Followed(S.FRESH, after.looks).0, decode)
  {
    hide S.Decoded, S.Polled, S.Followed, LinesIn, RollingRaises, Run, D.After, D.Evaluated, Meanwhile, WaitAfter;
    var lines := LinesOf(life, round.look, decode);
    LinesOfHears(life.ops, lines);
    OneMoreOp(life.ops + Hears(lines), D.Evaluate(round.turn.now));
    APollMore(life.looks, round.look, decode);
  }

  lemma ARoundJudges(cfg: Config, s: D.Settings, start: real, life: Life, round: Round, decode: Decoder)
    requires JudgedAt(life.ops) == CapturingAt(cfg, start, life.steps)
    ensures var after := Lived(cfg, s, start, life, round, decode);
            JudgedAt(after.ops) == CapturingAt(cfg, start, after.steps)
  {
    hide LinesOf, JudgedAt, CapturingAt, RollingRaises, Run, D.After, D.Evaluated, Meanwhile, WaitAfter;
    var heard := life.ops + Hears(LinesOf(life, round.look, decode));
    LinesOfHears(life.ops, LinesOf(life, round.look, decode));
    OneMoreOp(heard, D.Evaluate(round.turn.now));
    ACaptureMore(cfg, start, life.steps, Empty(round));
    var st := D.After(s, heard);
    ACaptureMore(cfg, start, life.steps,
                 Step(round.before, round.turn, D.Evaluated(s, st, st.rooms, round.turn.now).drops));
  }

  lemma ARoundLooks(cfg: Config, s: D.Settings, start: real, life: Life, early: seq<Round>, round: Round,
                    decode: Decoder)
    requires life.looks == LooksOf(early) && SameTurns(life.steps, early)
    ensures var after := Lived(cfg, s, start, life, round, decode);
            after.looks == LooksOf(early + [round]) && SameTurns(after.steps, early + [round])
  {
    hide LinesOf, Hears, RollingRaises, Run, D.After, D.Evaluated, Meanwhile, WaitAfter;
    assert (early + [round])[..|early|] == early;
  }

  lemma ARoundWaits(cfg: Config, s: D.Settings, start: real, life: Life, round: Round, decode: Decoder)
    ensures var after := Lived(cfg, s, start, life, round, decode);
            && |after.steps| == |life.steps| + 1 && after.steps[..|life.steps|] == life.steps
            && after.steps[|life.steps|].turn == round.turn && after.steps[|life.steps|].before == round.before
            && after.waits == life.waits
                 + [WaitAfter(cfg, Begun(Run(cfg, start, life.steps), Empty(round)), round.turn)]
  {
    hide LinesOf, RollingRaises, Run, D.After, D.Evaluated, Meanwhile, Hears, WaitAfter;
  }

  /** Over any life: the loop waits as in a game after a turn that saw an engine, got as far as
      its captures and did not fail in its sweep, and as at rest after any other. */
  lemma {:induction false} HowLongItWaits(cfg: Config, s: D.Settings, start: real, rounds: seq<Round>, decode: Decoder)
    ensures var life := LifeOf(cfg, s, start, rounds, decode);
            && |life.waits| == |life.steps| == |rounds|
            && forall i :: 0 <= i < |rounds| ==>
                 life.waits[i]
                 == if && rounds[i].turn.engines != []
                       && CapturesAt(cfg, start, life.steps, i)
                       && (rounds[i].turn.failing == TheSweep ==> !SweepsAt(cfg, start, life.steps, i))
                    then cfg.stepInGame else cfg.stepAtRest
  {
    hide Lived, Run, Captures, Meanwhile;
    if rounds != [] {
      var n := |rounds| - 1;
      var before, after := LifeOf(cfg, s, start, rounds[..n], decode), LifeOf(cfg, s, start, rounds, decode);
      HowLongItWaits(cfg, s, start, rounds[..n], decode);
      ARoundWaits(cfg, s, start, before, rounds[n], decode);
      forall i | 0 <= i < n
        ensures after.waits[i] == before.waits[i]
        ensures CapturesAt(cfg, start, after.steps, i) == CapturesAt(cfg, start, before.steps, i)
        ensures SweepsAt(cfg, start, after.steps, i) == SweepsAt(cfg, start, before.steps, i)
      {
        assert after.steps[..n][..i] == after.steps[..i];
        assert before.steps[i] == after.steps[..n][i];
      }
    }
  }

  // ---- when the drops of a room are asked for --------------------------------

  /** The instants at which the drops of a room were asked for, in a ledger. */
  function AsksAt(ledger: seq<Fate>, room: D.Room): seq<Instant> {
    if ledger == [] then []
    else
      var last := ledger[|ledger| - 1];
      AsksAt(ledger[..|ledger| - 1], room) + if last.drop.room == room then [last.asked] else []
  }

  /** And with the one that waits. */
  function Asks(b: Box, room: D.Room): seq<Instant> {
    AsksAt(b.ledger, room)
    + if b.waiting.Some? && b.waiting.value.drop.room == room then [b.waiting.value.since] else []
  }

  /** The instant, once for each drop of a room. */
  function TimesOf(drops: seq<D.Drop>, room: D.Room, now: Instant): seq<Instant> {
    if drops == [] then []
    else TimesOf(drops[..|drops| - 1], room, now) + if drops[|drops| - 1].room == room then [now] else []
  }

  lemma AskOne(ledger: seq<Fate>, f: Fate, room: D.Room)
    ensures AsksAt(ledger + [f], room) == AsksAt(ledger, room) + if f.drop.room == room then [f.asked] else []
    ensures ledger + [] == ledger
  {
    assert (ledger + [f])[..|ledger|] == ledger;
  }

  lemma RefusedAsks(b: Box, turn: Turn, d: D.Drop, asked: Instant, room: D.Room)
    ensures multiset(Asks(Refused(b, turn, Some(d), asked), room))
            == multiset(Asks(b, room)) + multiset(if d.room == room then [asked] else [])
  {
    hide AsksAt;
    AskOne(b.ledger, WithoutEngine(d, asked, turn.now), room);
  }

  lemma SubmitAsks(cfg: Config, b: Box, turn: Turn, engine: Engine, d: D.Drop, asked: Instant, room: D.Room)
    ensures multiset(Asks(Submit(cfg, b, turn, engine, Some(d), asked), room))
            == multiset(Asks(b, room)) + multiset(if d.room == room then [asked] else [])
  {
    hide AsksAt;
    AskOne(b.ledger, Submitted(d, asked, turn.now), room);
  }

  lemma PutOffAsks(b: Box, turn: Turn, engine: Engine, d: D.Drop, room: D.Room)
    ensures multiset(Asks(PutOff(b, turn, engine, d), room))
            == multiset(Asks(b, room)) + multiset(if d.room == room then [turn.now] else [])
  {
    hide AsksAt;
    if b.waiting.Some? {
      AskOne(b.ledger, Replaced(b.waiting.value.drop, b.waiting.value.since, turn.now), room);
    } else {
      assert b.ledger + [] == b.ledger;
    }
  }

  lemma AskedAsksNothing(b: Box, turn: Turn, room: D.Room)
    ensures Asks(Asked(b, turn), room) == Asks(b, room)
    ensures !Busy(b) ==> Asked(b, turn) == b
    ensures Asked(b, turn).waiting == b.waiting
  {
    hide AsksAt;
  }

  /** A request for a drop adds it to those asked for, once. */
  lemma RequestAsks(cfg: Config, b: Box, turn: Turn, engine: Option<Engine>, d: D.Drop, asked: Instant, room: D.Room)
    requires asked == turn.now || !Busy(b)
    ensures multiset(Asks(Requested(cfg, b, turn, engine, Some(d), asked).0, room))
            == multiset(Asks(b, room)) + multiset(if d.room == room then [asked] else [])
  {
    hide Asks, Asked, Busy, Refused, Submit, PutOff;
    AskedAsksNothing(b, turn, room);
    if engine.None? {
      RefusedAsks(b, turn, d, asked, room);
    } else {
      SubmitAsks(cfg, Asked(b, turn), turn, engine.value, d, asked, room);
      PutOffAsks(Asked(b, turn), turn, engine.value, d, room);
    }
  }

  lemma TakenFromTheSlot(b: Box, room: D.Room)
    requires b.waiting.Some?
    ensures multiset(Asks(b, room))
            == multiset(Asks(b.(waiting := None), room))
               + multiset(if b.waiting.value.drop.room == room then [b.waiting.value.since] else [])
  {
    hide AsksAt;
  }

  lemma GiveUpAsks(b: Box, turn: Turn, w: Waiting, room: D.Room)
    requires b.waiting.None?
    ensures multiset(Asks(GiveUp(b, turn, w), room))
            == multiset(Asks(b, room)) + multiset(if w.drop.room == room then [w.since] else [])
  {
    hide AsksAt;
    AskOne(b.ledger, TooLate(w.drop, w.since, turn.now), room);
  }

  lemma ResumingAsksNothing(cfg: Config, b: Box, turn: Turn, room: D.Room)
    ensures multiset(Asks(Resumed(cfg, b, turn), room)) == multiset(Asks(b, room))
  {
    hide Asks, Asked, Requested, GiveUp;
    AskedAsksNothing(b, turn, room);
    if b.waiting.Some? && !Busy(Asked(b, turn)) {
      var w, free := b.waiting.value, Asked(b, turn).(waiting := None);
      TakenFromTheSlot(Asked(b, turn), room);
      if turn.now - w.since > ATTENTE_MAX {
        GiveUpAsks(free, turn, w, room);
      } else {
        RequestAsks(cfg, free, turn, Some(w.engine), w.drop, w.since, room);
      }
    }
  }

  lemma PeriodicAsksNothing(cfg: Config, b: Box, turn: Turn, room: D.Room)
    ensures Asks(Periodic(cfg, b, turn), room) == Asks(b, room)
  {
    hide AsksAt, EngineOf;
    assert b.ledger + [] == b.ledger;
  }

  lemma {:induction false} RequestsAsk(cfg: Config, b: Box, turn: Turn, drops: seq<D.Drop>, room: D.Room)
    ensures multiset(Asks(AllRequested(cfg, b, turn, drops), room))
            == multiset(Asks(b, room)) + multiset(TimesOf(drops, room, turn.now))
  {
    hide Asks, Requested, EngineOf;
    if drops != [] {
      var n := |drops| - 1;
      RequestsAsk(cfg, b, turn, drops[..n], room);
      RequestAsks(cfg, AllRequested(cfg, b, turn, drops[..n]), turn, EngineOf(drops[n].room, turn.engines), drops[n],
                  turn.now, room);
    }
  }

  /** A turn asks once for each of its drops, and for nothing else. */
  lemma ATurnAsks(cfg: Config, b: Box, step: Step, room: D.Room)
    ensures var b0 := Begun(b, step);
            multiset(Asks(Toured(cfg, b0, step.turn, step.drops), room))
            == multiset(Asks(b, room))
               + if Captures(cfg, b0, step.turn) then multiset(TimesOf(step.drops, room, step.turn.now)) else multiset{}
  {
    hide AsksAt, TimesOf, Resumed, AllRequested, Periodic, RollingRaises, Rolled;
    var b0 := Begun(b, step);
    var b1 := Seen(cfg, b0, step.turn);
    var b2 := Resumed(cfg, b1, step.turn);
    ResumingAsksNothing(cfg, b1, step.turn, room);
    RequestsAsk(cfg, b2, step.turn, step.drops, room);
    PeriodicAsksNothing(cfg, AllRequested(cfg, b2, step.turn, step.drops), step.turn, room);
  }

  // ---- the alerts of a room --------------------------------------------------

  /** An evaluation gives a room one alert at most, and no room an alert of another. */
  lemma {:induction false} AlertsOfARoom(s: D.Settings, st: D.State, rooms: seq<D.Room>, now: Instant, room: D.Room)
    requires D.Distinct(rooms)
    ensures TimesOf(D.Alerts(s, st, rooms, now), room, now)
            == if room in rooms && D.Alert(s, st, room, now).Some? then [now] else []
  {
    hide D.Alert, TimesOf;
    NoTimes(room, now);
    if rooms != [] {
      var early, last := rooms[..|rooms| - 1], rooms[|rooms| - 1];
      AlertsOfARoom(s, st, early, now, room);
      assert rooms == early + [last];
      var alerts := D.Alerts(s, st, early, now);
      assert alerts + [] == alerts;
      if D.Alert(s, st, last, now).Some? {
        AlertIsOfItsRoom(s, st, last, now);
        TimeOne(alerts, D.Alert(s, st, last, now).value, room, now);
      }
    }
  }

  lemma AlertIsOfItsRoom(s: D.Settings, st: D.State, room: D.Room, now: Instant)
    ensures D.Alert(s, st, room, now).Some? ==> D.Alert(s, st, room, now).value.room == room
  {
    hide D.Verdict, D.Pruned;
  }

  lemma NoTimes(room: D.Room, now: Instant)
    ensures TimesOf([], room, now) == []
  {
  }

  lemma TimeOne(drops: seq<D.Drop>, d: D.Drop, room: D.Room, now: Instant)
    ensures TimesOf(drops + [d], room, now) == TimesOf(drops, room, now) + if d.room == room then [now] else []
  {
    assert (drops + [d])[..|drops|] == drops;
  }

  lemma EvaluationOfARoom(s: D.Settings, st: D.State, now: Instant, room: D.Room)
    requires D.WellFormed(st) && D.Known(st, st.rooms)
    ensures TimesOf(D.Evaluated(s, st, st.rooms, now).drops, room, now)
            == if D.Alert(s, st, room, now).Some? then [now] else []
  {
    assert D.Distinct(st.rooms);
    hide D.Alert, D.Evaluated, D.Alerts, D.RoomAfter, D.RoomUntouched, TimesOf, D.Distinct;
    D.EvaluationByRoom(s, st, st.rooms, now);
    AlertsOfARoom(s, st, st.rooms, now, room);
    if room !in st.rooms {
      D.NoAlertUnheard(s, st, room, now);
    }
  }

  lemma AlertTimesMore(s: D.Settings, ops: seq<D.Op>, now: Instant, room: D.Room)
    ensures D.AlertTimes(s, ops + [D.Evaluate(now)], room)
            == D.AlertTimes(s, ops, room) + if D.Alert(s, D.After(s, ops), room, now).Some? then [now] else []
  {
    hide D.After, D.Alert;
    assert (ops + [D.Evaluate(now)])[..|ops|] == ops;
  }

  lemma {:induction false} HearingGivesNoAlert(s: D.Settings, ops: seq<D.Op>, lines: seq<D.Line>, room: D.Room)
    ensures D.AlertTimes(s, ops + Hears(lines), room) == D.AlertTimes(s, ops, room)
  {
    hide D.Alert, D.After;
    if lines == [] {
      assert ops + Hears(lines) == ops;
    } else {
      var early, last := lines[..|lines| - 1], D.Hear(lines[|lines| - 1]);
      HearingGivesNoAlert(s, ops, early, room);
      assert ops + Hears(lines) == ops + Hears(early) + [last];
      assert (ops + Hears(early) + [last])[..|ops + Hears(early)|] == ops + Hears(early);
    }
  }

  // ---- from the trigger to the ledger ----------------------------------------

  /** Over any life of the service: the drops of a room in the ledger and in the waiting slot
      were asked for at exactly the instants at which the trigger gave that room an alert. */
  lemma {:induction false} AskedWhenAlerted(cfg: Config, s: D.Settings, start: real, rounds: seq<Round>,
                                            decode: Decoder, room: D.Room)
    ensures var life := LifeOf(cfg, s, start, rounds, decode);
            multiset(Asks(Run(cfg, start, life.steps), room)) == multiset(D.AlertTimes(s, life.ops, room))
  {
    hide Asks, D.AlertTimes, D.After, D.Evaluated, Toured, Captures, TimesOf, Begun, LinesOf;
    if rounds == [] {
      NothingAsked(s, start, room);
    } else {
      var early, round := rounds[..|rounds| - 1], rounds[|rounds| - 1];
      var life := LifeOf(cfg, s, start, early, decode);
      AskedWhenAlerted(cfg, s, start, early, decode, room);
      ARoundAsks(cfg, s, start, life, round, decode, room);
    }
  }

  lemma NothingAsked(s: D.Settings, start: real, room: D.Room)
    ensures Asks(Started(start), room) == [] && D.AlertTimes(s, [], room) == []
  {
  }

  lemma ARoundAsks(cfg: Config, s: D.Settings, start: real, life: Life, round: Round, decode: Decoder, room: D.Room)
    requires multiset(Asks(Run(cfg, start, life.steps), room)) == multiset(D.AlertTimes(s, life.ops, room))
    ensures var after := Lived(cfg, s, start, life, round, decode);
            multiset(Asks(Run(cfg, start, after.steps), room)) == multiset(D.AlertTimes(s, after.ops, room))
  {
    hide Asks, D.AlertTimes, D.After, D.Evaluated, D.Alert, Toured, RollingRaises, LinesOf, Run, Meanwhile;
    var b, turn := Run(cfg, start, life.steps), round.turn;
    var lines := LinesOf(life, round.look, decode);
    var heard := life.ops + Hears(lines);
    HearingGivesNoAlert(s, life.ops, lines, room);
    var st := D.After(s, heard);
    EvaluationOfARoom(s, st, turn.now, room);
    AlertTimesMore(s, heard, turn.now, room);
    var full := Step(round.before, turn, D.Evaluated(s, st, st.rooms, turn.now).drops);
    ATurnAsks(cfg, b, Empty(round), room);
    ATurnAsks(cfg, b, full, room);
    RunMore(cfg, start, life.steps, Empty(round));
    RunMore(cfg, start, life.steps, full);
  }

  // ---- so they are the pause apart -------------------------------------------

  predicate AtLeastApart(a: Instant, b: Instant, pause: int) {
    a - b >= pause || b - a >= pause
  }

  ghost predicate Increasing(times: seq<Instant>, pause: int) {
    forall i, j :: 0 <= i < j < |times| ==> times[j] - times[i] >= pause
  }

  lemma {:induction false} NoneTwice(times: seq<Instant>, pause: int, x: Instant)
    requires pause > 0 && Increasing(times, pause)
    ensures multiset(times)[x] <= 1
  {
    if times != [] {
      var early, last := times[..|times| - 1], times[|times| - 1];
      NoneTwice(early, pause, x);
      assert times == early + [last];
      assert x == last ==> x !in early;
    }
  }

  /** Any two places of a sequence with the same elements. */
  lemma ApartInAnyOrder(a: seq<Instant>, times: seq<Instant>, pause: int, p: nat, q: nat)
    requires multiset(a) == multiset(times) && Increasing(times, pause) && pause >= 0 && p < q < |a|
    ensures AtLeastApart(a[p], a[q], pause)
  {
    if pause > 0 {
      NoneTwice(times, pause, a[p]);
      TwicePresent(a, p, q);
      assert a[p] in multiset(a) && a[q] in multiset(a);
      assert a[p] in times && a[q] in times;
    }
  }

  lemma TwicePresent(a: seq<Instant>, p: nat, q: nat)
    requires p < q < |a|
    ensures a[p] == a[q] ==> multiset(a)[a[p]] >= 2
  {
    assert a == a[..q] + a[q..] && a[p] in a[..q] && a[q] in a[q..];
    assert multiset(a) == multiset(a[..q]) + multiset(a[q..]);
  }

  /** Where a drop of a room stands among those asked for. */
  lemma {:induction false} PlaceOf(ledger: seq<Fate>, room: D.Room, i: nat)
    requires i < |ledger| && ledger[i].drop.room == room
    ensures var p := |AsksAt(ledger[..i], room)|;
            p < |AsksAt(ledger, room)| && AsksAt(ledger, room)[p] == ledger[i].asked
  {
    var n := |ledger| - 1;
    if i < n {
      PlaceOf(ledger[..n], room, i);
      assert ledger[..n][..i] == ledger[..i];
    }
  }

  lemma AlertsAreIncreasing(s: D.Settings, ops: seq<D.Op>, room: D.Room)
    requires s.pause >= 0
    ensures Increasing(D.AlertTimes(s, ops, room), s.pause)
  {
    forall i, j | 0 <= i < j < |D.AlertTimes(s, ops, room)|
      ensures D.AlertTimes(s, ops, room)[j] - D.AlertTimes(s, ops, room)[i] >= s.pause
    {
      D.AlertsAreAPauseApart(s, ops, room, i, j);
    }
  }

  /** Over any life of the service, whatever its clock does: any two drops of one room, ended
      or waiting, were asked for at least the pause apart. */
  lemma DropsOfARoomAreAPauseApart(cfg: Config, s: D.Settings, start: real, rounds: seq<Round>, decode: Decoder)
    requires s.pause >= 0
    ensures var b := Run(cfg, start, LifeOf(cfg, s, start, rounds, decode).steps);
            && (forall i, j :: 0 <= i < j < |b.ledger| && b.ledger[i].drop.room == b.ledger[j].drop.room ==>
                  AtLeastApart(b.ledger[i].asked, b.ledger[j].asked, s.pause))
            && (b.waiting.Some? ==>
                  forall i :: 0 <= i < |b.ledger| && b.ledger[i].drop.room == b.waiting.value.drop.room ==>
                    AtLeastApart(b.ledger[i].asked, b.waiting.value.since, s.pause))
  {
    hide LifeOf, Run, AsksAt, D.AlertTimes, AtLeastApart, Increasing;
    var life := LifeOf(cfg, s, start, rounds, decode);
    var b := Run(cfg, start, life.steps);
    forall i | 0 <= i < |b.ledger|
      ensures forall j :: i < j < |b.ledger| && b.ledger[i].drop.room == b.ledger[j].drop.room ==>
                AtLeastApart(b.ledger[i].asked, b.ledger[j].asked, s.pause)
      ensures b.waiting.Some? && b.ledger[i].drop.room == b.waiting.value.drop.room ==>
                AtLeastApart(b.ledger[i].asked, b.waiting.value.since, s.pause)
    {
      var room := b.ledger[i].drop.room;
      var asks, times := Asks(b, room), D.AlertTimes(s, life.ops, room);
      AskedWhenAlerted(cfg, s, start, rounds, decode, room);
      AlertsAreIncreasing(s, life.ops, room);
      PlaceOf(b.ledger, room, i);
      var p := |AsksAt(b.ledger[..i], room)|;
      forall j | i < j < |b.ledger| && room == b.ledger[j].drop.room
        ensures AtLeastApart(b.ledger[i].asked, b.ledger[j].asked, s.pause)
      {
        PlaceOf(b.ledger, room, j);
        PlaceOf(b.ledger[..j], room, i);
        assert b.ledger[..j][..i] == b.ledger[..i];
        ApartInAnyOrder(asks, times, s.pause, p, |AsksAt(b.ledger[..j], room)|);
      }
      if b.waiting.Some? && room == b.waiting.value.drop.room {
        ApartInAnyOrder(asks, times, s.pause, p, |AsksAt(b.ledger, room)|);
      }
    }
  }
}
