/** The black box: one turn of its loop at a time, one capture in flight, one
    drop that may wait (control/nel3ab_control/boite_noire/service.py). */
module Service {
  import opened Common
  import D = Declencheur
  import R = Roulant
  import S = Suiveur

  /** Wall-clock instants, in microseconds. */
  type Instant = int

  /** How long a drop may wait for the capture in flight: sixty seconds. */
  const ATTENTE_MAX := 60_000_000

  /** An emulator of the last reading, with the number of threads measured in it. */
  datatype Engine = Engine(pid: int, room: Option<int>, threads: nat)

  datatype Reason = Chute | Periodique

  /** A submission to the executor. `t` is the monotonic clock of its turn, and
      `withBuffer` says that the rolling profile of before goes with it. */
  datatype Capture = Capture(reason: Reason, engine: Engine, at: Instant, t: real,
                             drop: Option<D.Drop>, withBuffer: bool)

  datatype Waiting = Waiting(drop: D.Drop, engine: Engine, since: Instant)

  /** The lines the service writes in its own log. */
  datatype Entry =
    | Reading(when: Instant, withAllocator: bool)
    | Captured(when: Instant, reason: Reason, room: Option<int>, details: Option<D.Drop>)
    | Skipped(when: Instant, reason: Reason)
    | Deferred(when: Instant, drop: D.Drop)
    | Impossible(when: Instant, reason: Reason, details: Option<D.Drop>)
    | Abandoned(when: Instant, drop: D.Drop)

  /** How a drop ends: `asked` is the turn that asked for its capture, `at` the
      turn that decided. A replaced drop leaves no line in the log. */
  datatype Fate =
    | Submitted(drop: D.Drop, asked: Instant, at: Instant)
    | WithoutEngine(drop: D.Drop, asked: Instant, at: Instant)
    | TooLate(drop: D.Drop, asked: Instant, at: Instant)
    | Replaced(drop: D.Drop, asked: Instant, at: Instant)

  datatype Config = Config(allocatorPeriod: real, profilePeriod: real, debugfsInGame: bool, rolling: bool,
                           stepInGame: real, stepAtRest: real)

  /** Which outside call of a turn raises, if one does; the rolling profiler raises by
      itself. */
  datatype Failing = Nothing | TheReading | TheSweep

  /** One turn, as the outside makes it: the clocks, the reading, for the k-th time of the
      turn that the capture in flight is asked whether it is done, and what comes of stopping
      and of launching the rolling profiler. */
  datatype Turn = Turn(now: Instant, t: real, day: int, engineRunning: bool, engines: seq<Engine>,
                       done: nat -> bool, failing: Failing, stop: R.Stop, launches: bool)

  datatype Box = Box(waiting: Option<Waiting>, current: Option<nat>, captures: seq<Capture>, finished: set<nat>,
                     lastProfile: real, lastAllocator: Option<real>, sweptDay: Option<int>,
                     journal: seq<Entry>, ledger: seq<Fate>, asks: nat, rolling: R.Box)

  function Started(t: real): Box {
    Box(None, None, [], {}, t, None, None, [], [], 0, R.EMPTY)
  }

  // ---- the parts of a turn ---------------------------------------------------

  predicate Busy(b: Box) {
    b.current.Some? && b.current.value !in b.finished
  }

  /** Asking whether the capture in flight is done. */
  function Asked(b: Box, turn: Turn): Box {
    if !Busy(b) then b
    else if turn.done(b.asks) then b.(finished := b.finished + {b.current.value}, asks := b.asks + 1)
    else b.(asks := b.asks + 1)
  }

  function WithThreads(engines: seq<Engine>): (r: seq<Engine>)
    ensures forall e :: e in r <==> e in engines && e.threads > 0
  {
    if engines == [] then []
    else if engines[0].threads > 0 then [engines[0]] + WithThreads(engines[1..]) else WithThreads(engines[1..])
  }

  /** The first engine of a room, or the first of all, among those with threads. */
  function EngineOf(room: Option<int>, engines: seq<Engine>): (r: Option<Engine>)
    ensures r.Some? ==> r.value in engines && r.value.threads > 0 && (room.Some? ==> r.value.room == room)
    ensures r.None? ==> forall e :: e in engines && e.threads > 0 ==> room.Some? && e.room != room
  {
    FirstOf(room, WithThreads(engines))
  }

  function FirstOf(room: Option<int>, engines: seq<Engine>): (r: Option<Engine>)
    ensures r.Some? ==> r.value in engines && (room.Some? ==> r.value.room == room)
    ensures r.None? ==> forall e :: e in engines ==> room.Some? && e.room != room
  {
    if engines == [] then None
    else if room.None? || engines[0].room == room then Some(engines[0])
    else FirstOf(room, engines[1..])
  }

  /** The five things that can become of a request; `asked` is when its drop
      first asked. */
  function Refused(b: Box, turn: Turn, drop: Option<D.Drop>, asked: Instant): Box {
    match drop
    case None => b.(journal := b.journal + [Impossible(turn.now, Periodique, None)])
    case Some(d) =>
      b.(journal := b.journal + [Impossible(turn.now, Chute, drop)],
         ledger := b.ledger + [WithoutEngine(d, asked, turn.now)])
  }

  function PutOff(b: Box, turn: Turn, engine: Engine, d: D.Drop): Box {
    b.(waiting := Some(Waiting(d, engine, turn.now)),
       journal := b.journal + [Deferred(turn.now, d)],
       ledger := b.ledger + Displaced(b.waiting, turn.now))
  }

  function Displaced(waiting: Option<Waiting>, at: Instant): seq<Fate> {
    if waiting.Some? then [Replaced(waiting.value.drop, waiting.value.since, at)] else []
  }

  function Skip(b: Box, turn: Turn): Box {
    b.(journal := b.journal + [Skipped(turn.now, Periodique)])
  }

  function Submit(cfg: Config, b: Box, turn: Turn, engine: Engine, drop: Option<D.Drop>, asked: Instant): Box {
    var reason := if drop.Some? then Chute else Periodique;
    b.(current := Some(|b.captures|),
       captures := b.captures + [Capture(reason, engine, turn.now, turn.t, drop, drop.Some? && cfg.rolling)],
       journal := b.journal + [Captured(turn.now, reason, engine.room, drop)],
       ledger := b.ledger + if drop.Some? then [Submitted(drop.value, asked, turn.now)] else [])
  }

  function GiveUp(b: Box, turn: Turn, w: Waiting): Box {
    b.(journal := b.journal + [Abandoned(turn.now, w.drop)],
       ledger := b.ledger + [TooLate(w.drop, w.since, turn.now)])
  }

  /** Asking for a capture. */
  function Requested(cfg: Config, b: Box, turn: Turn, engine: Option<Engine>, drop: Option<D.Drop>,
                     asked: Instant): (Box, bool)
  {
    if engine.None? then (Refused(b, turn, drop, asked), false)
    else
      var b := Asked(b, turn);
      if !Busy(b) then (Submit(cfg, b, turn, engine.value, drop, asked), true)
      else if drop.Some? then (PutOff(b, turn, engine.value, drop.value), false)
      else (Skip(b, turn), false)
  }

  /** Taking up the drop that waits, once the capture before it is done. */
  function Resumed(cfg: Config, b: Box, turn: Turn): Box {
    if b.waiting.None? then b
    else if Busy(Asked(b, turn)) then Asked(b, turn)
    else
      var w := b.waiting.value;
      var b := Asked(b, turn).(waiting := None);
      if turn.now - w.since > ATTENTE_MAX then GiveUp(b, turn, w)
      else Requested(cfg, b, turn, Some(w.engine), Some(w.drop), w.since).0
  }

  /** The new drops of a turn, in order. */
  function AllRequested(cfg: Config, b: Box, turn: Turn, drops: seq<D.Drop>): Box {
    if drops == [] then b
    else
      var d := drops[|drops| - 1];
      Requested(cfg, AllRequested(cfg, b, turn, drops[..|drops| - 1]), turn, EngineOf(d.room, turn.engines), Some(d),
                turn.now).0
  }

  /** The capture of a game that goes well, when it is time and nothing waits. */
  function Periodic(cfg: Config, b: Box, turn: Turn): Box {
    var engine := EngineOf(None, turn.engines);
    if turn.engines != [] && b.waiting.None? && turn.t - b.lastProfile >= cfg.profilePeriod && engine.Some? then
      var r := Requested(cfg, b, turn, engine, None, turn.now);
      if r.1 then r.0.(lastProfile := turn.t) else r.0
    else b
  }

  predicate WithAllocator(cfg: Config, b: Box, turn: Turn) {
    && (!turn.engineRunning || cfg.debugfsInGame)
    && (b.lastAllocator.Some? ==> turn.t - b.lastAllocator.value >= cfg.allocatorPeriod)
  }

  /** The turn up to the reading. */
  function Opened(cfg: Config, b: Box, turn: Turn): Box {
    b.(lastAllocator := if WithAllocator(cfg, b, turn) then Some(turn.t) else b.lastAllocator, asks := 0)
  }

  /** The process the rolling profiler is to follow: the first engine's, none at rest. */
  function Followed(turn: Turn): Option<int> {
    var first := EngineOf(None, turn.engines);
    if first.Some? then Some(first.value.pid) else None
  }

  /** The rolling profiler after the turn has seen to it. */
  function Rolled(cfg: Config, b: Box, turn: Turn): R.Box {
    if cfg.rolling then R.Next(b.rolling, Followed(turn), turn.stop, turn.launches) else b.rolling
  }

  predicate RollingRaises(cfg: Config, b: Box, turn: Turn) {
    cfg.rolling && R.OutcomeOf(b.rolling, Followed(turn), turn.stop, turn.launches) == R.Raised
  }

  /** Whether the turn gets as far as its captures. */
  predicate Captures(cfg: Config, b: Box, turn: Turn) {
    turn.failing != TheReading && !RollingRaises(cfg, b, turn)
  }

  /** The turn up to the rolling profiler. */
  function Seen(cfg: Config, b: Box, turn: Turn): Box {
    var b0 := Opened(cfg, b, turn);
    b0.(journal := b0.journal + [Reading(turn.now, WithAllocator(cfg, b, turn))], rolling := Rolled(cfg, b, turn))
  }

  /** Whether the turn sweeps the old captures: once its own are asked for, when its day is
      not the one noted at the last sweep. */
  predicate Sweeps(cfg: Config, b: Box, turn: Turn) {
    Captures(cfg, b, turn) && b.sweptDay != Some(turn.day)
  }

  /** A whole turn, given the drops the trigger finds in it. */
  function Toured(cfg: Config, b: Box, turn: Turn, drops: seq<D.Drop>): Box {
    var b0 := Opened(cfg, b, turn);
    if turn.failing == TheReading then b0
    else
      var b1 := Seen(cfg, b, turn);
      if !Captures(cfg, b, turn) then b1
      else Periodic(cfg, AllRequested(cfg, Resumed(cfg, b1, turn), turn, drops), turn).(sweptDay := Some(turn.day))
  }

  // ---- the service object ----------------------------------------------------

  class BoiteNoire {
    const cfg: Config
    const suiveur: S.Suiveur
    const declencheur: D.Declencheur
    const roulant: R.Roulant    // unused unless cfg.rolling
    var waiting: Option<Waiting>
    var current: Option<nat>
    var lastProfile: real
    var lastAllocator: Option<real>
    var sweptDay: Option<int>
    // What the executor was given and has finished, and the lines of the log.
    var captures: seq<Capture>
    var finished: set<nat>
    var journal: seq<Entry>
    ghost var ledger: seq<Fate>
    // How many times the executor was asked, in this turn, whether it is done.
    var asks: nat

    ghost function Value(): Box
      reads this, roulant
    {
      Box(waiting, current, captures, finished, lastProfile, lastAllocator, sweptDay, journal, ledger, asks,
          roulant.Value())
    }

    constructor (cfg: Config, suiveur: S.Suiveur, declencheur: D.Declencheur, roulant: R.Roulant, t: real)
      requires roulant.Value() == R.EMPTY
      ensures this.cfg == cfg && this.suiveur == suiveur && this.declencheur == declencheur
      ensures this.roulant == roulant && Value() == Started(t)
    {
      this.cfg, this.suiveur, this.declencheur, this.roulant := cfg, suiveur, declencheur, roulant;
      waiting, current, captures, finished := None, None, [], {};
      lastProfile, lastAllocator, sweptDay := t, None, None;
      journal, ledger, asks := [], [], 0;
    }

    /** Is a capture still running? */
    method Occupe(turn: Turn) returns (busy: bool)
      modifies `finished, `asks
      ensures Value() == Asked(old(Value()), turn)
      ensures busy == Busy(Value())
    {
      if current.None? || current.value in finished {
        return false;
      }
      var done := turn.done(asks);
      asks := asks + 1;
      if done {
        finished := finished + {current.value};
      }
      return !done;
    }

    /** Starts the drop that waits, if the capture before it is done. */
    method Reprendre(turn: Turn)
      modifies `waiting, `current, `captures, `finished, `journal, `ledger, `asks
      ensures Value() == Resumed(cfg, old(Value()), turn)
    {
      if waiting.None? {
        return;
      }
      var busy := Occupe(turn);
      if busy {
        return;
      }
      var w := waiting.value;
      waiting := None;
      if turn.now - w.since > ATTENTE_MAX {
        journal := journal + [Abandoned(turn.now, w.drop)];
        ledger := ledger + [TooLate(w.drop, w.since, turn.now)];
        return;
      }
      var started := Demander(turn, Some(w.engine), Some(w.drop), w.since);
    }

    /** The engine of a room, or the first one, among those with measured threads. */
    method MoteurDe(room: Option<int>, engines: seq<Engine>) returns (engine: Option<Engine>)
      ensures engine == EngineOf(room, engines)
    {
      var withThreads := WithThreads(engines);
      var k := 0;
      while k < |withThreads|
        invariant 0 <= k <= |withThreads|
        invariant FirstOf(room, withThreads) == FirstOf(room, withThreads[k..])
      {
        if room.None? || withThreads[k].room == room {
          return Some(withThreads[k]);
        }
        assert withThreads[k..][1..] == withThreads[k + 1..];
        k := k + 1;
      }
      return None;
    }

    /** Asks for a capture; says whether it was submitted. */
    method Demander(turn: Turn, engine: Option<Engine>, drop: Option<D.Drop>, ghost asked: Instant)
        returns (submitted: bool)
      modifies `waiting, `current, `captures, `finished, `journal, `ledger, `asks
      ensures (Value(), submitted) == Requested(cfg, old(Value()), turn, engine, drop, asked)
    {
      var reason := if drop.Some? then Chute else Periodique;
      if engine.None? {
        journal := journal + [Impossible(turn.now, reason, drop)];
        if drop.Some? {
          ledger := ledger + [WithoutEngine(drop.value, asked, turn.now)];
        }
        return false;
      }
      var busy := Occupe(turn);
      if busy {
        if drop.Some? {
          ledger := ledger + Displaced(waiting, turn.now);
          waiting := Some(Waiting(drop.value, engine.value, turn.now));
          journal := journal + [Deferred(turn.now, drop.value)];
        } else {
          journal := journal + [Skipped(turn.now, reason)];
        }
        return false;
      }
      var withBuffer := drop.Some? && cfg.rolling;
      current := Some(|captures|);
      captures := captures + [Capture(reason, engine.value, turn.now, turn.t, drop, withBuffer)];
      journal := journal + [Captured(turn.now, reason, engine.value.room, drop)];
      ledger := ledger + if drop.Some? then [Submitted(drop.value, asked, turn.now)] else [];
      return true;
    }

    /** One turn of the loop: read the machine, hear the pages, capture. `None`
        is a turn that raised. */
    method Tour(turn: Turn, look: S.Look, decode: seq<Byte> -> Option<D.Line>)
        returns (step: Option<real>, ghost drops: seq<D.Drop>)
      requires D.WellFormed(declencheur.Value()) && roulant.Valid()
      modifies this, suiveur, declencheur, roulant
      ensures D.WellFormed(declencheur.Value()) && roulant.Valid()
      ensures Value() == Toured(cfg, old(Value()), turn, drops)
      ensures turn.failing == TheReading ==>
                suiveur.Value() == old(suiveur.Value()) && declencheur.Value() == old(declencheur.Value())
      ensures turn.failing != TheReading ==>
                var polled := S.Polled(old(suiveur.Value()), look);
                var heard := HeardAll(old(declencheur.Value()), S.Decoded(polled.0, decode));
                && suiveur.Value() == polled.1
                && D.Known(heard, heard.rooms)
                && (Captures(cfg, old(Value()), turn) ==>
                      D.Evaluation(declencheur.Value(), drops)
                      == D.Evaluated(declencheur.settings, heard, heard.rooms, turn.now))
                && (!Captures(cfg, old(Value()), turn) ==> declencheur.Value() == heard)
      ensures step.Some? ==> step.value == if turn.engines != [] then cfg.stepInGame else cfg.stepAtRest
      ensures step.None? <==> !Captures(cfg, old(Value()), turn)
                              || (Sweeps(cfg, old(Value()), turn) && turn.failing == TheSweep)
    {
      hide Resumed, AllRequested, Periodic, HeardAll, D.Heard, D.WellFormed, S.Polled, S.Decoded, D.Evaluated, R.Next,
        R.OutcomeOf, R.Sound, EngineOf;
      drops := [];
      var raised := Relever(turn);
      if raised {
        return None, [];
      }
      var lines := suiveur.Nouvelles(look, decode);
      Entendre(lines);
      D.AllRoomsKnown(declencheur.Value());
      if cfg.rolling {
        var first := MoteurDe(None, turn.engines);
        var outcome := roulant.Suivre(if first.Some? then Some(first.value.pid) else None, turn.stop, turn.launches);
        if outcome == R.Raised {
          return None, [];
        }
      }
      drops := Capturer(turn);
      if sweptDay != Some(turn.day) {
        sweptDay := Some(turn.day);
        if turn.failing == TheSweep {
          return None, drops;
        }
      }
      return Some(if turn.engines != [] then cfg.stepInGame else cfg.stepAtRest), drops;
    }

    /** The reading of the machine; says whether it raised. */
    method Relever(turn: Turn) returns (raised: bool)
      modifies `lastAllocator, `journal, `asks
      ensures raised <==> turn.failing == TheReading
      ensures var opened' := Opened(cfg, old(Value()), turn);
              var reading := Reading(turn.now, WithAllocator(cfg, old(Value()), turn));
              Value() == if raised then opened' else opened'.(journal := opened'.journal + [reading])
    {
      asks := 0;
      var permitted := !turn.engineRunning || cfg.debugfsInGame;
      var withAllocator :=
        permitted && (lastAllocator.None? || turn.t - lastAllocator.value >= cfg.allocatorPeriod);
      if withAllocator {
        lastAllocator := Some(turn.t);
      }
      if turn.failing == TheReading {
        return true;
      }
      journal := journal + [Reading(turn.now, withAllocator)];
      return false;
    }

    /** The captures of a turn: the one that waits, the new drops, the periodic one. */
    method Capturer(turn: Turn) returns (drops: seq<D.Drop>)
      requires D.WellFormed(declencheur.Value())
      requires D.Known(declencheur.Value(), declencheur.Value().rooms)
      modifies `waiting, `current, `captures, `finished, `journal, `ledger, `asks, `lastProfile, declencheur
      ensures D.WellFormed(declencheur.Value())
      ensures D.Evaluation(declencheur.Value(), drops)
           == D.Evaluated(declencheur.settings, old(declencheur.Value()), old(declencheur.rooms), turn.now)
      ensures Value() == Periodic(cfg, AllRequested(cfg, Resumed(cfg, old(Value()), turn), turn, drops), turn)
    {
      hide Resumed, AllRequested, Periodic, D.WellFormed, D.Evaluated;
      Reprendre(turn);
      drops := declencheur.Evaluer(turn.now);
      Chutes(turn, drops);
      ProfilPeriodique(turn);
    }

    /** The capture of a game that goes well. */
    method ProfilPeriodique(turn: Turn)
      modifies `waiting, `current, `captures, `finished, `journal, `ledger, `asks, `lastProfile
      ensures Value() == Periodic(cfg, old(Value()), turn)
    {
      hide Requested, Asked;
      if turn.engines != [] && waiting.None? && turn.t - lastProfile >= cfg.profilePeriod {
        var engine := MoteurDe(None, turn.engines);
        if engine.Some? {
          var submitted := Demander(turn, engine, None, turn.now);
          if submitted {
            lastProfile := turn.t;
          }
        }
      }
    }

    method Entendre(lines: seq<D.Line>)
      requires D.WellFormed(declencheur.Value())
      modifies declencheur
      ensures D.WellFormed(declencheur.Value())
      ensures declencheur.Value() == HeardAll(old(declencheur.Value()), lines)
    {
      hide D.Heard, D.WellFormed;
      var k := 0;
      while k < |lines|
        invariant 0 <= k <= |lines|
        invariant D.WellFormed(declencheur.Value())
        invariant declencheur.Value() == HeardAll(old(declencheur.Value()), lines[..k])
      {
        assert lines[..k + 1][..k] == lines[..k];
        declencheur.Lire(lines[k]);
        k := k + 1;
      }
      assert lines[..k] == lines;
    }

    method Chutes(turn: Turn, drops: seq<D.Drop>)
      modifies `waiting, `current, `captures, `finished, `journal, `ledger, `asks
      ensures Value() == AllRequested(cfg, old(Value()), turn, drops)
    {
      hide Requested, Asked;
      var k := 0;
      while k < |drops|
        invariant 0 <= k <= |drops|
        invariant Value() == AllRequested(cfg, old(Value()), turn, drops[..k])
      {
        assert drops[..k + 1][..k] == drops[..k];
        var engine := MoteurDe(drops[k].room, turn.engines);
        var submitted := Demander(turn, engine, Some(drops[k]), turn.now);
        k := k + 1;
      }
      assert drops[..k] == drops;
    }
  }

  function HeardAll(st: D.State, lines: seq<D.Line>): D.State {
    if lines == [] then st else D.Heard(HeardAll(st, lines[..|lines| - 1]), lines[|lines| - 1])
  }
}
