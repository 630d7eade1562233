/** The life of a room: its controllers, its emulator, its captures and their
    orderly end, whichever outside call fails (docker/switch-room.py, serve and
    stop_engine). */
module Room {
  /** What became of an outside call: done, refused by the program, or no answer in
      time (or no program at all). */
  datatype Outcome = Fine | Refused | Broke

  datatype Action =
    | StartHelper | Prepare | StartEngine
    | AskEngine | StopCapture | StartCapture(at: real)
    | WaitCapture | StopEngine | Inspect | WriteExit | Backup | EngineLogs | RemoveEngine
    | StopHelper | HelperLogs | RemoveHelper

  datatype Call = Call(action: Action, outcome: Outcome)

  // ---- the restart limiter ---------------------------------------------------

  /** One look at a running room. */
  datatype Turn = Turn(asked: Outcome, running: bool, display: bool, exited: bool,
                       stopped: Outcome, now: real, started: bool)

  datatype Ending = Closed | EngineExited | TooMany(at: real) | CallFailed

  const MINUTE := 60.0
  const STARTS := 3

  ghost predicate Sorted(times: seq<real>) {
    forall i, j :: 0 <= i < j < |times| ==> times[i] <= times[j]
  }

  ghost predicate Monotone(turns: seq<Turn>) {
    forall i, j :: 0 <= i < j < |turns| ==> turns[i].now <= turns[j].now
  }

  /** The starts of the last minute, as the loop keeps them. */
  function Recent(times: seq<real>, now: real): seq<real> {
    if times == [] then []
    else (if now - times[0] < MINUTE then [times[0]] else []) + Recent(times[1..], now)
  }

  lemma {:induction false} RecentIsATail(times: seq<real>, now: real, gone: nat)
    requires gone <= |times|
    requires forall i :: 0 <= i < gone ==> now - times[i] >= MINUTE
    requires forall i :: gone <= i < |times| ==> now - times[i] < MINUTE
    ensures Recent(times, now) == times[gone..]
  {
    if times != [] {
      var rest := times[1..];
      assert forall i :: 0 <= i < |rest| ==> rest[i] == times[i + 1];
      if gone == 0 {
        RecentIsATail(rest, now, 0);
        assert times == [times[0]] + rest;
      } else {
        RecentIsATail(rest, now, gone - 1);
        assert rest[gone - 1..] == times[gone..];
      }
    }
  }

  /** How many of the kept starts are a minute old. */
  function Gone(times: seq<real>, now: real): (gone: nat)
    ensures gone <= |times|
    ensures forall i :: 0 <= i < gone ==> now - times[i] >= MINUTE
    ensures gone < |times| ==> now - times[gone] < MINUTE
  {
    if times == [] || now - times[0] < MINUTE then 0 else 1 + Gone(times[1..], now)
  }

  /** When captures were started. */
  function Starts(calls: seq<Call>): (times: seq<real>) {
    if calls == [] then []
    else
      var last := calls[|calls| - 1];
      Starts(calls[..|calls| - 1]) + (if last.action.StartCapture? then [last.action.at] else [])
  }

  /** No minute holds more than three starts. */
  ghost predicate Spaced(times: seq<real>) {
    forall i :: 0 <= i && i + STARTS < |times| ==> times[i + STARTS] - times[i] >= MINUTE
  }

  /** A minute is any span of sixty seconds, its end not counted. */
  lemma AtMostThreeAMinute(times: seq<real>, from: real, four: seq<nat>)
    requires Sorted(times) && Spaced(times)
    requires |four| == STARTS + 1 && forall a :: 0 <= a < |four| ==> four[a] < |times|
    requires forall a, b :: 0 <= a < b < |four| ==> four[a] < four[b]
    ensures !(forall a :: 0 <= a < |four| ==> from <= times[four[a]] < from + MINUTE)
  {
    var first, last := four[0], four[3];
    assert first < four[1] < four[2] < last;
    assert times[first + STARTS] <= times[last];
    assert times[first + STARTS] - times[first] >= MINUTE;
  }

  /** The list the loop keeps is the tail of all starts, without those a minute old
      when it last looked. */
  ghost predicate Limiter(retries: seq<real>, times: seq<real>, last: real) {
    && Sorted(times) && Spaced(times)
    && (times != [] ==> times[|times| - 1] <= last)
    && |retries| <= |times| && retries == times[|times| - |retries|..]
    && forall i :: 0 <= i < |times| - |retries| ==> last - times[i] >= MINUTE
  }

  /** The starts within the minute, counted over all of them. */
  lemma RecentOfAll(retries: seq<real>, times: seq<real>, last: real, now: real) returns (gone: nat)
    requires Limiter(retries, times, last) && last <= now
    ensures gone <= |times| && Recent(retries, now) == times[gone..]
    ensures forall i :: 0 <= i < gone ==> now - times[i] >= MINUTE
    ensures forall i :: gone <= i < |times| ==> now - times[i] < MINUTE
  {
    hide Recent, Gone, Spaced;
    var before, more := |times| - |retries|, Gone(retries, now);
    gone := before + more;
    forall i | before <= i < |times|
      ensures times[i] == retries[i - before]
      ensures now - times[i] < MINUTE <==> i >= gone
    {
      assert times[i] == retries[i - before];
      if i >= gone {
        assert now - retries[more] < MINUTE && retries[more] == times[gone] <= times[i];
      }
    }
    forall i | more <= i < |retries|
      ensures now - retries[i] < MINUTE
    {
      assert times[before + i] == retries[i];
    }
    RecentIsATail(retries, now, more);
    assert retries[more..] == times[gone..];
  }

  /** The kept list refuses a start exactly when three really fall in the minute. */
  lemma LimiterLooks(retries: seq<real>, times: seq<real>, last: real, now: real)
    requires Limiter(retries, times, last) && last <= now
    ensures |Recent(retries, now)| >= STARTS
            <==> |times| >= STARTS && now - times[|times| - STARTS] < MINUTE
    ensures |Recent(retries, now)| < STARTS ==> Limiter(Recent(retries, now) + [now], times + [now], now)
  {
    hide Recent, Limiter;
    var gone := RecentOfAll(retries, times, last, now);
    if |times| - gone < STARTS {
      StartAllowed(retries, times, last, now, gone);
    }
  }

  lemma StartAllowed(retries: seq<real>, times: seq<real>, last: real, now: real, gone: nat)
    requires Limiter(retries, times, last) && last <= now
    requires gone <= |times| < gone + STARTS
    requires forall i :: 0 <= i < gone ==> now - times[i] >= MINUTE
    ensures Limiter(times[gone..] + [now], times + [now], now)
  {
    var more := times + [now];
    assert more[gone..] == times[gone..] + [now];
    assert Sorted(more);
    forall i | 0 <= i && i + STARTS < |more|
      ensures more[i + STARTS] - more[i] >= MINUTE
    {
      if i + STARTS < |times| {
        assert times[i + STARTS] - times[i] >= MINUTE;
      }
    }
  }

  /** What the watch may do: ask, stop captures, start captures; a capture starts
      only right after captures were stopped. */
  ghost predicate Watching(calls: seq<Call>) {
    forall i :: 0 <= i < |calls| ==> Allowed(calls, i)
  }

  ghost predicate Allowed(calls: seq<Call>, i: nat)
    requires i < |calls|
  {
    && (calls[i].action.AskEngine? || calls[i].action.StopCapture? || calls[i].action.StartCapture?)
    && (calls[i].action.StartCapture? ==> i > 0 && calls[i - 1] == Call(StopCapture, Fine))
  }

  ghost predicate Began(c: Call) {
    c.action.StartCapture? && c.outcome.Fine?
  }

  /** Some capture client was started. */
  ghost predicate Captured(calls: seq<Call>) {
    exists i :: 0 <= i < |calls| && Began(calls[i])
  }

  ghost predicate AllFine(calls: seq<Call>) {
    forall i :: 0 <= i < |calls| ==> calls[i].outcome.Fine?
  }

  /** The calls of a watch so far, all of them fine, and what the limiter keeps. */
  ghost predicate Going(calls: seq<Call>, retries: seq<real>, last: real) {
    Watching(calls) && AllFine(calls) && Limiter(retries, Starts(calls), last)
  }

  lemma StartsMore(calls: seq<Call>, c: Call)
    ensures Starts(calls + [c]) == Starts(calls) + (if c.action.StartCapture? then [c.action.at] else [])
  {
    assert (calls + [c])[..|calls|] == calls;
  }

  lemma CapturedMore(calls: seq<Call>, c: Call)
    ensures Captured(calls + [c]) <==> Captured(calls) || Began(c)
  {
    hide Began;
    var more := calls + [c];
    assert more[|calls|] == c;
    if i :| 0 <= i < |calls| && Began(calls[i]) {
      assert Began(more[i]);
    }
  }

  lemma AllFineMore(calls: seq<Call>, c: Call)
    ensures AllFine(calls + [c]) <==> AllFine(calls) && c.outcome.Fine?
  {
    var more := calls + [c];
    assert more[|calls|] == c;
    assert forall i :: 0 <= i < |calls| ==> more[i] == calls[i];
  }

  lemma WatchingMore(calls: seq<Call>, c: Call)
    requires Watching(calls)
    requires c.action.AskEngine? || c.action.StopCapture?
             || (c.action.StartCapture? && calls != [] && calls[|calls| - 1] == Call(StopCapture, Fine))
    ensures Watching(calls + [c])
  {
    var more := calls + [c];
    forall i | 0 <= i < |more|
      ensures Allowed(more, i)
    {
      if i < |calls| {
        assert Allowed(calls, i);
      }
    }
  }

  /** A question or a stop of the captures changes nothing for the limiter. */
  lemma GoingMore(calls: seq<Call>, c: Call, retries: seq<real>, last: real)
    requires Going(calls, retries, last) && (c.action.AskEngine? || c.action.StopCapture?)
    ensures Safe(calls + [c])
    ensures AllFine(calls + [c]) <==> c.outcome.Fine?
    ensures c.outcome.Fine? ==> Going(calls + [c], retries, last)
    ensures Captured(calls + [c]) <==> Captured(calls)
    ensures Starts(calls + [c]) == Starts(calls)
  {
    hide Starts, Captured, AllFine, Watching, Spaced, Sorted;
    WatchingMore(calls, c);
    AllFineMore(calls, c);
    StartsMore(calls, c);
    assert Starts(calls) + [] == Starts(calls);
    CapturedMore(calls, c);
  }

  /** A start the limiter allows. */
  lemma GoingStart(calls: seq<Call>, retries: seq<real>, last: real, now: real, outcome: Outcome)
    requires Going(calls, retries, last) && last <= now && |Recent(retries, now)| < STARTS
    requires calls != [] && calls[|calls| - 1] == Call(StopCapture, Fine)
    ensures var c := Call(StartCapture(now), outcome);
            && Safe(calls + [c])
            && (AllFine(calls + [c]) <==> outcome.Fine?)
            && (outcome.Fine? ==> Going(calls + [c], Recent(retries, now) + [now], now))
            && (Captured(calls + [c]) <==> Captured(calls) || outcome.Fine?)
  {
    hide Starts, Captured, AllFine, Watching, Spaced, Sorted, Recent;
    var c := Call(StartCapture(now), outcome);
    WatchingMore(calls, c);
    AllFineMore(calls, c);
    StartsMore(calls, c);
    CapturedMore(calls, c);
    LimiterLooks(retries, Starts(calls), last, now);
  }

  /** What holds of every watch, however it ends. */
  ghost predicate Safe(calls: seq<Call>) {
    Watching(calls) && Sorted(Starts(calls)) && Spaced(Starts(calls))
  }

  lemma GoingIsSafe(calls: seq<Call>, retries: seq<real>, last: real)
    requires Going(calls, retries, last)
    ensures Safe(calls) && AllFine(calls)
  {
  }

  /** Three starts in the minute before this instant, the captures just stopped. */
  ghost predicate LimitReached(calls: seq<Call>, now: real) {
    && calls != [] && calls[|calls| - 1] == Call(StopCapture, Fine)
    && |Starts(calls)| >= STARTS && now - Starts(calls)[|Starts(calls)| - STARTS] < MINUTE
  }

  lemma LimitIs(calls: seq<Call>, retries: seq<real>, last: real, now: real)
    requires Going(calls, retries, last) && last <= now
    requires calls != [] && calls[|calls| - 1] == Call(StopCapture, Fine)
    ensures |Recent(retries, now)| >= STARTS <==> LimitReached(calls, now)
    ensures |Recent(retries, now)| >= STARTS <==> ThreeInTheMinute(Starts(calls), now)
  {
    hide Recent, Starts, Sorted, Spaced, Limiter;
    LimiterLooks(retries, Starts(calls), last, now);
  }

  /** What a watch has come to. */
  datatype Watched = Watched(calls: seq<Call>, capture: bool, ending: Ending)

  /** Three of all the starts so far fall in the minute before an instant. */
  predicate ThreeInTheMinute(times: seq<real>, now: real) {
    |times| >= STARTS && now - times[|times| - STARTS] < MINUTE
  }

  /** One look at the room: is the emulator there, and is a capture to be started. */
  function Looked(w: Watched, turn: Turn): Watched {
    var asked := w.calls + [Call(AskEngine, turn.asked)];
    var stopped := asked + [Call(StopCapture, turn.stopped)];
    var start := Call(StartCapture(turn.now), if turn.started then Fine else Broke);
    if !turn.asked.Fine? then w.(calls := asked, ending := CallFailed)
    else if !turn.running then w.(calls := asked, ending := EngineExited)
    else if !(turn.display && (!w.capture || turn.exited)) then w.(calls := asked)
    else if !turn.stopped.Fine? then w.(calls := stopped, ending := CallFailed)
    else if ThreeInTheMinute(Starts(w.calls), turn.now) then w.(calls := stopped, ending := TooMany(turn.now))
    else if !turn.started then w.(calls := stopped + [start], ending := CallFailed)
    else w.(calls := stopped + [start], capture := true)
  }

  /** A watch that forgets no start: look after look, until one ends it. */
  function WatchOf(turns: seq<Turn>): Watched {
    if turns == [] then Watched([], false, Closed)
    else
      var w := WatchOf(turns[..|turns| - 1]);
      if w.ending.Closed? then Looked(w, turns[|turns| - 1]) else w
  }

  lemma {:induction false} EndedStays(turns: seq<Turn>, k: nat)
    requires k <= |turns| && !WatchOf(turns[..k]).ending.Closed?
    ensures WatchOf(turns) == WatchOf(turns[..k])
  {
    if k < |turns| {
      assert turns[..|turns| - 1][..k] == turns[..k];
      EndedStays(turns[..|turns| - 1], k);
    } else {
      assert turns[..k] == turns;
    }
  }

  lemma OneMoreTurn(turns: seq<Turn>, i: nat)
    requires i < |turns| && WatchOf(turns[..i]).ending.Closed?
    ensures WatchOf(turns[..i + 1]) == Looked(WatchOf(turns[..i]), turns[i])
  {
    assert turns[..i + 1][..i] == turns[..i];
  }

  // ---- what a watch does, look by look ---------------------------------------

  /** Where the calls of a look end: where those of the next begin. */
  function EndOf(calls: seq<Call>, at: seq<nat>, i: nat): nat
    requires i < |at|
  {
    if i + 1 < |at| then at[i + 1] else |calls|
  }

  /** Captures must be started when the display is there and none has been, or their client
      has ended. */
  ghost predicate NeedsCapture(before: seq<Call>, turn: Turn) {
    turn.display && (!Captured(before) || turn.exited)
  }

  /** The calls of one look: the question; the stop of the captures exactly when they must
      be started; a start exactly when that went through and fewer than three starts lie in
      the minute. */
  ghost predicate LookIs(calls: seq<Call>, from: nat, to: nat, turn: Turn) {
    && from < to <= |calls| && to - from <= 3
    && calls[from] == Call(AskEngine, turn.asked)
    && (to - from >= 2 <==> turn.asked.Fine? && turn.running && NeedsCapture(calls[..from], turn))
    && (to - from >= 2 ==> calls[from + 1] == Call(StopCapture, turn.stopped))
    && (to - from == 3 <==> to - from >= 2 && turn.stopped.Fine?
                            && !ThreeInTheMinute(Starts(calls[..from]), turn.now))
    && (to - from == 3 ==> calls[from + 2] == Call(StartCapture(turn.now), if turn.started then Fine else Broke))
  }

  /** What a look with so many calls ends the watch with, if it does. */
  function EndsWith(turn: Turn, n: nat): Ending {
    if !turn.asked.Fine? then CallFailed
    else if !turn.running then EngineExited
    else if n >= 2 && !turn.stopped.Fine? then CallFailed
    else if n == 2 then TooMany(turn.now)
    else if n == 3 && !turn.started then CallFailed
    else Closed
  }

  /** The calls are those of looks at the first turns, one after the other; only the last can
      end the watch, and a watch that nothing ends looks at every turn. */
  ghost predicate Laid(calls: seq<Call>, turns: seq<Turn>, at: seq<nat>, ending: Ending) {
    && |at| <= |turns|
    && (if at == [] then calls == [] && ending == Closed else at[0] == 0)
    && (forall i :: 0 <= i < |at| ==> LookIs(calls, at[i], EndOf(calls, at, i), turns[i]))
    && (forall i :: 0 <= i < |at| ==>
          EndsWith(turns[i], EndOf(calls, at, i) - at[i]) == if i == |at| - 1 then ending else Closed)
    && (ending == Closed ==> |at| == |turns|)
  }

  lemma LookedIs(w: Watched, turn: Turn)
    requires w.ending == Closed && w.capture == Captured(w.calls)
    ensures var after := Looked(w, turn);
            && w.calls <= after.calls && LookIs(after.calls, |w.calls|, |after.calls|, turn)
            && after.ending == EndsWith(turn, |after.calls| - |w.calls|)
            && after.capture == Captured(after.calls)
  {
    hide Captured, Starts, ThreeInTheMinute;
    var after := Looked(w, turn);
    var asked := w.calls + [Call(AskEngine, turn.asked)];
    var stopped := asked + [Call(StopCapture, turn.stopped)];
    CapturedMore(w.calls, Call(AskEngine, turn.asked));
    CapturedMore(asked, Call(StopCapture, turn.stopped));
    CapturedMore(stopped, Call(StartCapture(turn.now), if turn.started then Fine else Broke));
    assert after.calls[..|w.calls|] == w.calls;
  }

  /** More calls change nothing to a look that is over. */
  lemma LookStays(calls: seq<Call>, more: seq<Call>, from: nat, to: nat, turn: Turn)
    requires LookIs(calls, from, to, turn) && calls <= more
    ensures LookIs(more, from, to, turn)
  {
    hide Captured, Starts, ThreeInTheMinute;
    assert more[..from] == calls[..from];
  }

  lemma OneMoreLook(w: Watched, turns: seq<Turn>, at: seq<nat>, turn: Turn)
    requires Laid(w.calls, turns, at, Closed) && w.ending == Closed && w.capture == Captured(w.calls)
    ensures var after := Looked(w, turn);
            && Laid(after.calls, turns + [turn], at + [|w.calls|], after.ending)
            && after.capture == Captured(after.calls)
  {
    hide Captured, Looked, LookIs;
    var after, more := Looked(w, turn), at + [|w.calls|];
    LookedIs(w, turn);
    forall i | 0 <= i < |at|
      ensures EndOf(after.calls, more, i) == EndOf(w.calls, at, i)
      ensures LookIs(after.calls, at[i], EndOf(w.calls, at, i), turns[i])
    {
      LookStays(w.calls, after.calls, at[i], EndOf(w.calls, at, i), turns[i]);
    }
    assert EndOf(after.calls, more, |at|) == |after.calls|;
  }

  /** Every watch does so. */
  lemma {:induction false} WatchIsLaid(turns: seq<Turn>) returns (at: seq<nat>)
    ensures Laid(WatchOf(turns).calls, turns, at, WatchOf(turns).ending)
    ensures WatchOf(turns).ending == Closed ==> WatchOf(turns).capture == Captured(WatchOf(turns).calls)
  {
    hide Looked, Captured, Laid;
    if turns == [] {
      at := [];
      NoLook();
    } else {
      var n := |turns| - 1;
      at := WatchIsLaid(turns[..n]);
      var w := WatchOf(turns[..n]);
      if w.ending == Closed {
        OneMoreLook(w, turns[..n], at, turns[n]);
        assert turns[..n] + [turns[n]] == turns;
        at := at + [|w.calls|];
      } else {
        LaidForMore(w.calls, turns, at, w.ending);
      }
    }
  }

  lemma NoLook()
    ensures !Captured([]) && Laid([], [], [], Closed)
  {
  }

  lemma LaidForMore(calls: seq<Call>, turns: seq<Turn>, at: seq<nat>, ending: Ending)
    requires turns != [] && Laid(calls, turns[..|turns| - 1], at, ending) && ending != Closed
    ensures Laid(calls, turns, at, ending)
  {
    hide LookIs;
  }

  /** Watches a room until it is closed or something fails: with the few starts it
      keeps, it does what a watch that forgets none would do. Its calls are those of one
      look after the other, captures being started again exactly when they must. */
  method Watch(turns: seq<Turn>) returns (calls: seq<Call>, ending: Ending, capture: bool)
    requires Monotone(turns)
    ensures Watched(calls, capture, ending) == WatchOf(turns)
    ensures exists at :: Laid(calls, turns, at, ending)
    ensures Safe(calls) && capture == Captured(calls)
    ensures ending.TooMany? ==> LimitReached(calls, ending.at)
    ensures ending.CallFailed? <==> !AllFine(calls)
    ensures ending.Closed? ==> |calls| >= |turns|
  {
    hide Going, Safe, Captured, AllFine, LimitReached, WatchOf, Laid;
    ghost var at := WatchIsLaid(turns);
    var retries: seq<real> := [];
    ghost var last := if turns == [] then 0.0 else turns[0].now;
    calls, capture, ending := [], false, Closed;
    WatchStarts(last);
    assert turns[..0] == [];
    for i := 0 to |turns|
      invariant |calls| >= i && Going(calls, retries, last) && capture == Captured(calls)
      invariant i < |turns| ==> last <= turns[i].now
      invariant ending == Closed && WatchOf(turns[..i]) == Watched(calls, capture, Closed)
    {
      OneMoreTurn(turns, i);
      calls, capture, ending, retries, last := Look(turns[i], calls, capture, retries, last);
      if !ending.Closed? {
        EndedStays(turns, i + 1);
        return;
      }
    }
    assert turns[..|turns|] == turns;
    GoingIsSafe(calls, retries, last);
  }

  /** One look. */
  method Look(turn: Turn, calls: seq<Call>, capture: bool, retries: seq<real>, ghost last: real)
    returns (more: seq<Call>, captured: bool, ending: Ending, kept: seq<real>, ghost looked: real)
    requires Going(calls, retries, last) && last <= turn.now && capture == Captured(calls)
    ensures |calls| < |more| && Safe(more) && captured == Captured(more)
    ensures Watched(more, captured, ending) == Looked(Watched(calls, capture, Closed), turn)
    ensures ending.TooMany? ==> LimitReached(more, ending.at)
    ensures ending.CallFailed? <==> !AllFine(more)
    ensures ending.Closed? ==> Going(more, kept, looked) && looked <= turn.now
  {
    hide Going, Safe, Captured, AllFine, LimitReached, ThreeInTheMinute;
    captured, kept, looked := capture, retries, last;
    GoingMore(calls, Call(AskEngine, turn.asked), retries, last);
    more := calls + [Call(AskEngine, turn.asked)];
    if !turn.asked.Fine? {
      ending := CallFailed;
      return;
    }
    GoingIsSafe(more, retries, last);
    if !turn.running {
      ending := EngineExited;
      return;
    }
    ending := Closed;
    if turn.display && (!capture || turn.exited) {
      more, ending, kept, looked := Restart(turn, more, retries, last);
      captured := capture || ending.Closed?;
    }
  }

  lemma WatchStarts(last: real)
    ensures Going([], [], last) && !Captured([]) && WatchOf([]) == Watched([], false, Closed)
  {
  }

  /** Captures stopped, then one started, unless three were in the last minute. */
  method Restart(turn: Turn, calls: seq<Call>, retries: seq<real>, ghost last: real)
    returns (more: seq<Call>, ending: Ending, kept: seq<real>, ghost looked: real)
    requires Going(calls, retries, last) && last <= turn.now
    ensures |calls| <= |more| && Safe(more)
    ensures ending == Closed || ending == CallFailed || ending == TooMany(turn.now)
    ensures ending.TooMany? ==> LimitReached(more, turn.now)
    ensures ending.CallFailed? <==> !AllFine(more)
    ensures Captured(more) <==> Captured(calls) || ending.Closed?
    ensures ending.Closed? ==> Going(more, kept, looked) && looked == turn.now
    ensures var stopped := calls + [Call(StopCapture, turn.stopped)];
            var start := Call(StartCapture(turn.now), if turn.started then Fine else Broke);
            && more == (if !turn.stopped.Fine? || ThreeInTheMinute(Starts(calls), turn.now) then stopped
                        else stopped + [start])
            && ending == (if !turn.stopped.Fine? then CallFailed
                          else if ThreeInTheMinute(Starts(calls), turn.now) then TooMany(turn.now)
                          else if turn.started then Closed else CallFailed)
  {
    hide Going, Safe, Captured, AllFine, LimitReached, Recent, ThreeInTheMinute;
    kept, looked := retries, last;
    GoingMore(calls, Call(StopCapture, turn.stopped), retries, last);
    more := calls + [Call(StopCapture, turn.stopped)];
    if !turn.stopped.Fine? {
      ending := CallFailed;
      return;
    }
    LimitIs(more, retries, last, turn.now);
    kept := Recent(retries, turn.now);
    if |kept| >= STARTS {
      ending := TooMany(turn.now);
      return;
    }
    var outcome := if turn.started then Fine else Broke;
    GoingStart(more, retries, last, turn.now, outcome);
    kept, looked := kept + [turn.now], turn.now;
    more := more + [Call(StartCapture(turn.now), outcome)];
    ending := if turn.started then Closed else CallFailed;
  }

  // ---- the end of a room -----------------------------------------------------

  /** What the outside answers while the emulator is stopped, and what the slot does. */
  datatype Stopping = Stopping(captures: Outcome, waited: Outcome, engine: Outcome, inspected: Outcome,
                               written: Outcome, saved: Outcome, logged: Outcome, removed: Outcome)

  /** What the outside answers to a call of a stop. */
  function StopAnswer(s: Stopping, a: Action): Outcome {
    match a
    case StopCapture => s.captures
    case WaitCapture => s.waited
    case StopEngine => s.engine
    case Inspect => s.inspected
    case WriteExit => s.written
    case Backup => s.saved
    case EngineLogs => s.logged
    case _ => s.removed
  }

  /** Every call has the outcome the outside gave it. */
  ghost predicate StopAnswered(s: Stopping, calls: seq<Call>) {
    forall i :: 0 <= i < |calls| ==> calls[i].outcome == StopAnswer(s, calls[i].action)
  }

  /** After the emulator has stopped, in this order, until one fails. */
  const AFTERWARDS := [Inspect, WriteExit, Backup, EngineLogs]

  ghost predicate At(log: seq<Call>, i: int, a: Action) {
    0 <= i < |log| && log[i].action == a
  }

  ghost predicate Did(log: seq<Call>, i: int, a: Action) {
    At(log, i, a) && log[i].outcome.Fine?
  }

  /** The calls of a stop: captures first, the emulator whatever came of it, the rest
      only once the emulator has stopped, its removal last and always then. */
  ghost predicate Stops(calls: seq<Call>, capture: bool, m: nat) {
    && At(calls, m, StopEngine) && At(calls, 0, StopCapture)
    && (m == 1 || (m == 2 && At(calls, 1, WaitCapture)))
    && (m == 2 <==> capture && !calls[0].outcome.Broke?)
    && (calls[m].outcome.Fine? <==> m + 1 < |calls|)
    && (m + 1 < |calls| ==>
          && m + 3 <= |calls| <= m + 6 && At(calls, |calls| - 1, RemoveEngine)
          && (forall i :: m < i < |calls| - 1 ==> calls[i].action == AFTERWARDS[i - m - 1])
          && (forall i :: m < i < |calls| - 2 ==> calls[i].outcome.Fine?)
          && (|calls| < m + 6 ==> !calls[|calls| - 2].outcome.Fine?))
  }

  /** Whether a call that was not fine stops the caller; a capture that cannot be
      stopped politely is stopped with its container. */
  predicate Harmless(c: Call) {
    c.outcome.Fine? || c == Call(StopCapture, Refused)
  }

  ghost predicate AllHarmless(calls: seq<Call>) {
    forall i :: 0 <= i < |calls| ==> Harmless(calls[i])
  }

  lemma HarmlessMore(calls: seq<Call>, more: seq<Call>)
    ensures AllHarmless(calls + more) <==> AllHarmless(calls) && AllHarmless(more)
  {
    var all := calls + more;
    assert forall i :: 0 <= i < |calls| ==> calls[i] == all[i];
    assert forall i :: 0 <= i < |more| ==> more[i] == all[|calls| + i];
  }

  lemma HarmlessOne(c: Call)
    ensures AllHarmless([c]) <==> Harmless(c)
  {
    assert AllHarmless([c]) ==> Harmless([c][0]);
  }

  /** The emulator of a started room stops, whatever became of its captures. */
  method StopTheEngine(capture: bool, s: Stopping) returns (calls: seq<Call>, ghost m: nat, ok: bool)
    ensures Stops(calls, capture, m) && StopAnswered(s, calls)
    ensures ok <==> AllHarmless(calls)
  {
    hide AllHarmless;
    var before: seq<Call>;
    before, ok := StopTheCaptures(capture, s);
    m := |before|;
    calls := before + [Call(StopEngine, s.engine)];
    HarmlessOne(Call(StopEngine, s.engine));
    HarmlessMore(before, [Call(StopEngine, s.engine)]);
    if !s.engine.Fine? {
      ok := false;
      return;
    }
    var after: seq<Call>, saved: bool := Afterwards(s);
    HarmlessMore(calls, after);
    HarmlessOne(Call(RemoveEngine, s.removed));
    HarmlessMore(calls + after, [Call(RemoveEngine, s.removed)]);
    calls := calls + after + [Call(RemoveEngine, s.removed)];
    ok := ok && saved && s.removed.Fine?;
  }

  /** The captures asked to stop, and the client waited for. */
  method StopTheCaptures(capture: bool, s: Stopping) returns (calls: seq<Call>, ok: bool)
    ensures |calls| == if capture && !s.captures.Broke? then 2 else 1
    ensures calls[0] == Call(StopCapture, s.captures) && (|calls| == 2 ==> calls[1] == Call(WaitCapture, s.waited))
    ensures ok <==> AllHarmless(calls)
  {
    calls, ok := [Call(StopCapture, s.captures)], !s.captures.Broke?;
    HarmlessOne(calls[0]);
    if ok && capture {
      HarmlessOne(Call(WaitCapture, s.waited));
      HarmlessMore(calls, [Call(WaitCapture, s.waited)]);
      calls, ok := calls + [Call(WaitCapture, s.waited)], s.waited.Fine?;
    }
  }

  /** The state of the stopped emulator, the backup of the slot, the logs. */
  method Afterwards(s: Stopping) returns (calls: seq<Call>, ok: bool)
    ensures 1 <= |calls| <= 4
    ensures forall i :: 0 <= i < |calls| ==> calls[i].action == AFTERWARDS[i]
    ensures forall i :: 0 <= i < |calls| - 1 ==> calls[i].outcome.Fine?
    ensures |calls| < 4 ==> !calls[|calls| - 1].outcome.Fine?
    ensures StopAnswered(s, calls)
    ensures ok <==> AllHarmless(calls)
  {
    calls, ok := [Call(Inspect, s.inspected)], s.inspected.Fine?;
    if ok {
      calls, ok := calls + [Call(WriteExit, s.written)], s.written.Fine?;
    }
    if ok {
      calls, ok := calls + [Call(Backup, s.saved)], s.saved.Fine?;
    }
    if ok {
      calls, ok := calls + [Call(EngineLogs, s.logged)], s.logged.Fine?;
    }
    assert ok <==> Harmless(calls[|calls| - 1]);
  }

  // ---- a whole room ----------------------------------------------------------

  /** All the answers of the outside to one room. */
  datatype Script = Script(helper: Outcome, prepared: Outcome, engine: Outcome, turns: seq<Turn>, stopping: Stopping,
                           helperStopped: Outcome, helperLogged: Outcome, helperRemoved: Outcome)

  ghost predicate Opens(calls: seq<Call>) {
    && 1 <= |calls| <= 3 && calls[0].action == StartHelper
    && (|calls| >= 2 <==> calls[0].outcome.Fine?) && (|calls| >= 2 ==> calls[1].action == Prepare)
    && (|calls| == 3 <==> calls[0].outcome.Fine? && calls[1].outcome.Fine?)
    && (|calls| == 3 ==> calls[2].action == StartEngine)
  }

  predicate EngineRuns(opening: seq<Call>) {
    |opening| == 3 && opening[2].outcome.Fine?
  }

  ghost predicate Closes(calls: seq<Call>) {
    && 1 <= |calls| <= 3 && calls[0].action == StopHelper
    && (calls[0].outcome.Fine? <==> |calls| == 3) && |calls| != 2
    && (|calls| == 3 ==> calls[1].action == HelperLogs && calls[2].action == RemoveHelper)
  }

  /** The four parts of a room's life, each there exactly when it must be. */
  ghost predicate Shape(opening: seq<Call>, watched: seq<Call>, stop: seq<Call>, close: seq<Call>, m: nat) {
    && Opens(opening) && Safe(watched)
    && (if EngineRuns(opening) then Stops(stop, Captured(watched), m) else watched == [] && stop == [])
    && (if opening[0].outcome.Fine? then Closes(close) else close == [])
  }

  /** What a room keeps, whichever call fails. */
  ghost predicate Shutdown(log: seq<Call>) {
    && StoppedIfStarted(log, StartEngine, StopEngine) && StoppedIfStarted(log, StartHelper, StopHelper)
    && RemovedIfStopped(log, StopEngine, RemoveEngine) && RemovedIfStopped(log, StopHelper, RemoveHelper)
    && HelperLast(log) && CapturesFirst(log) && BackedUpStopped(log)
  }

  /** Stopped exactly once when it was started, and never otherwise. */
  ghost predicate StoppedIfStarted(log: seq<Call>, start: Action, stop: Action) {
    && ((exists i :: Did(log, i, start)) <==> (exists j :: At(log, j, stop)))
    && (forall i, j :: At(log, i, stop) && At(log, j, stop) ==> i == j)
    && (forall i, j :: Did(log, i, start) && At(log, j, stop) ==> i < j)
  }

  ghost predicate RemovedIfStopped(log: seq<Call>, stop: Action, remove: Action) {
    && ((exists i :: Did(log, i, stop)) <==> (exists j :: At(log, j, remove)))
    && (forall i, j :: Did(log, i, stop) && At(log, j, remove) ==> i < j)
  }

  /** The controllers outlive the emulator's stop. */
  ghost predicate HelperLast(log: seq<Call>) {
    forall i, j :: At(log, i, StopEngine) && At(log, j, StopHelper) ==> i < j
  }

  /** Captures are asked to stop before the emulator, and none starts after that. */
  ghost predicate CapturesFirst(log: seq<Call>) {
    forall i :: At(log, i, StopEngine) ==>
      exists j :: j < i && At(log, j, StopCapture) && forall k :: j < k < |log| ==> !log[k].action.StartCapture?
  }

  /** The slot is copied only once the emulator has stopped. */
  ghost predicate BackedUpStopped(log: seq<Call>) {
    forall i :: At(log, i, Backup) ==> exists j :: j < i && Did(log, j, StopEngine)
  }

  /** Where each part of a room's life starts in the whole log. */
  function Whole(opening: seq<Call>, watched: seq<Call>, stop: seq<Call>, close: seq<Call>): seq<Call> {
    opening + watched + stop + close
  }

  predicate IsStopping(a: Action) {
    a.WaitCapture? || a.StopEngine? || a.Inspect? || a.WriteExit? || a.Backup? || a.EngineLogs? || a.RemoveEngine?
  }

  /** A call of each kind is in the part it belongs to. */
  lemma Located(opening: seq<Call>, watched: seq<Call>, stop: seq<Call>, close: seq<Call>, m: nat, i: nat)
    requires Shape(opening, watched, stop, close, m) && i < |Whole(opening, watched, stop, close)|
    ensures var a := Whole(opening, watched, stop, close)[i];
            var first, second, third := |opening|, |opening + watched|, |opening + watched + stop|;
            && (i < first <==> a.action.StartHelper? || a.action.Prepare? || a.action.StartEngine?)
            && (i >= third <==> a.action.StopHelper? || a.action.HelperLogs? || a.action.RemoveHelper?)
            && (a.action.AskEngine? || a.action.StartCapture? ==> first <= i < second)
            && (IsStopping(a.action) ==> second <= i < third)
            && (first <= i < second ==> a == watched[i - first])
            && (i < first ==> a == opening[i])
            && (second <= i < third ==> a == stop[i - second])
            && (i >= third ==> a == close[i - third])
  {
    hide Starts, Sorted, Spaced, Captured;
    var first, second, third := |opening|, |opening + watched|, |opening + watched + stop|;
    if first <= i < second {
      assert Allowed(watched, i - first);
    }
    if second <= i < third {
      var k := i - second;
      assert Whole(opening, watched, stop, close)[i] == stop[k];
      if k > m && k < |stop| - 1 {
        assert stop[k].action == AFTERWARDS[k - m - 1];
      }
    }
  }

  lemma StoppedOnce(opening: seq<Call>, watched: seq<Call>, stop: seq<Call>, close: seq<Call>, m: nat)
    requires Shape(opening, watched, stop, close, m)
    ensures StoppedIfStarted(Whole(opening, watched, stop, close), StartEngine, StopEngine)
    ensures StoppedIfStarted(Whole(opening, watched, stop, close), StartHelper, StopHelper)
    ensures HelperLast(Whole(opening, watched, stop, close))
  {
    hide Starts, Sorted, Spaced, Captured, Safe;
    var log := Whole(opening, watched, stop, close);
    var second, third := |opening + watched|, |opening + watched + stop|;
    hide Whole;
    PartsOf(opening, watched, stop, close);
    forall i | 0 <= i < |log|
      ensures log[i].action == StopEngine ==> EngineRuns(opening) && i == second + m
      ensures log[i].action == StopHelper ==> opening[0].outcome.Fine? && i == third
      ensures log[i].action == StartEngine ==> i == 2 && log[i] == opening[2]
      ensures log[i].action == StartHelper ==> i == 0 && log[i] == opening[0]
    {
      Located(opening, watched, stop, close, m, i);
      if second <= i < third {
        OneEngineStop(stop, Captured(watched), m, i - second);
      }
    }
    if EngineRuns(opening) {
      assert At(log, second + m, StopEngine) && Did(log, 2, StartEngine);
    }
    if opening[0].outcome.Fine? {
      assert At(log, third, StopHelper) && Did(log, 0, StartHelper);
    }
  }

  lemma OneEngineStop(stop: seq<Call>, capture: bool, m: nat, k: nat)
    requires Stops(stop, capture, m) && k < |stop|
    ensures stop[k].action == StopEngine <==> k == m
    ensures stop[k].action == RemoveEngine ==> m < k && k == |stop| - 1 && stop[m].outcome.Fine?
    ensures stop[k].action == Backup ==> m < k && stop[m].outcome.Fine?
  {
    if m < k < |stop| - 1 {
      assert stop[k].action == AFTERWARDS[k - m - 1];
    }
  }

  lemma PartsOf(opening: seq<Call>, watched: seq<Call>, stop: seq<Call>, close: seq<Call>)
    ensures var log := Whole(opening, watched, stop, close);
            && |log| == |opening| + |watched| + |stop| + |close|
            && (forall i :: 0 <= i < |opening| ==> log[i] == opening[i])
            && (forall i :: 0 <= i < |stop| ==> log[|opening + watched| + i] == stop[i])
            && (forall i :: 0 <= i < |close| ==> log[|opening + watched + stop| + i] == close[i])
  {
  }

  lemma EngineRemovedOnce(opening: seq<Call>, watched: seq<Call>, stop: seq<Call>, close: seq<Call>, m: nat)
    requires Shape(opening, watched, stop, close, m)
    ensures RemovedIfStopped(Whole(opening, watched, stop, close), StopEngine, RemoveEngine)
    ensures BackedUpStopped(Whole(opening, watched, stop, close))
  {
    hide Starts, Sorted, Spaced, Captured, Safe;
    var log := Whole(opening, watched, stop, close);
    var second, third := |opening + watched|, |opening + watched + stop|;
    hide Whole;
    PartsOf(opening, watched, stop, close);
    forall i | 0 <= i < |log|
      ensures log[i].action == StopEngine ==> i == second + m && log[i] == stop[m]
      ensures log[i].action == RemoveEngine || log[i].action == Backup ==>
                EngineRuns(opening) && i > second + m && stop[m].outcome.Fine?
    {
      Located(opening, watched, stop, close, m, i);
      if second <= i < third {
        OneEngineStop(stop, Captured(watched), m, i - second);
      }
    }
    if EngineRuns(opening) && stop[m].outcome.Fine? {
      assert Did(log, second + m, StopEngine) && At(log, third - 1, RemoveEngine);
    }
  }

  lemma HelperRemovedOnce(opening: seq<Call>, watched: seq<Call>, stop: seq<Call>, close: seq<Call>, m: nat)
    requires Shape(opening, watched, stop, close, m)
    ensures RemovedIfStopped(Whole(opening, watched, stop, close), StopHelper, RemoveHelper)
  {
    hide Starts, Sorted, Spaced, Captured, Safe;
    var log := Whole(opening, watched, stop, close);
    var third := |opening + watched + stop|;
    hide Whole;
    PartsOf(opening, watched, stop, close);
    forall i | 0 <= i < |log|
      ensures log[i].action == StopHelper ==> i == third && log[i] == close[0]
      ensures log[i].action == RemoveHelper ==> close != [] && i == third + 2 && close[0].outcome.Fine?
    {
      Located(opening, watched, stop, close, m, i);
    }
    if close != [] && close[0].outcome.Fine? {
      assert Did(log, third, StopHelper) && At(log, third + 2, RemoveHelper);
    }
  }

  lemma CapturesStoppedFirst(opening: seq<Call>, watched: seq<Call>, stop: seq<Call>, close: seq<Call>, m: nat)
    requires Shape(opening, watched, stop, close, m)
    ensures CapturesFirst(Whole(opening, watched, stop, close))
  {
    hide Starts, Sorted, Spaced, Captured, Safe;
    var log := Whole(opening, watched, stop, close);
    var second, third := |opening + watched|, |opening + watched + stop|;
    hide Whole;
    PartsOf(opening, watched, stop, close);
    forall i | At(log, i, StopEngine)
      ensures second < i && At(log, second, StopCapture)
    {
      Located(opening, watched, stop, close, m, i);
      OneEngineStop(stop, Captured(watched), m, i - second);
      assert log[second + 0] == stop[0];
    }
    forall k | second < k < |log|
      ensures !log[k].action.StartCapture?
    {
      Located(opening, watched, stop, close, m, k);
    }
  }

  /** Whatever the outside answers, the parts of a room's life make an orderly end. */
  lemma ShapeIsShutdown(opening: seq<Call>, watched: seq<Call>, stop: seq<Call>, close: seq<Call>, m: nat)
    requires Shape(opening, watched, stop, close, m)
    ensures Shutdown(Whole(opening, watched, stop, close))
    ensures Starts(Whole(opening, watched, stop, close)) == Starts(watched)
  {
    hide Shape, Whole, StoppedIfStarted, RemovedIfStopped, BackedUpStopped, CapturesFirst, HelperLast, Starts;
    StoppedOnce(opening, watched, stop, close, m);
    EngineRemovedOnce(opening, watched, stop, close, m);
    HelperRemovedOnce(opening, watched, stop, close, m);
    CapturesStoppedFirst(opening, watched, stop, close, m);
    StartsOfTheWatch(opening, watched, stop, close, m);
  }

  lemma StartsOfTheWatch(opening: seq<Call>, watched: seq<Call>, stop: seq<Call>, close: seq<Call>, m: nat)
    requires Shape(opening, watched, stop, close, m)
    ensures Starts(Whole(opening, watched, stop, close)) == Starts(watched)
  {
    hide Starts, Sorted, Spaced, Captured, Safe;
    var log := Whole(opening, watched, stop, close);
    forall i | 0 <= i < |log|
      ensures log[i].action.StartCapture? ==> |opening| <= i < |opening + watched|
    {
      Located(opening, watched, stop, close, m, i);
    }
    var tail := stop + close;
    assert log == (opening + watched) + tail;
    assert forall i :: 0 <= i < |opening| ==> log[i] == opening[i];
    assert forall i :: 0 <= i < |tail| ==> log[|opening + watched| + i] == tail[i];
    NoStarts(opening);
    NoStarts(tail);
    StartsOfBoth(opening, watched);
    StartsOfBoth(opening + watched, tail);
  }

  lemma {:induction false} NoStarts(calls: seq<Call>)
    requires forall i :: 0 <= i < |calls| ==> !calls[i].action.StartCapture?
    ensures Starts(calls) == []
  {
    if calls != [] {
      NoStarts(calls[..|calls| - 1]);
    }
  }

  lemma {:induction false} StartsOfBoth(a: seq<Call>, b: seq<Call>)
    ensures Starts(a + b) == Starts(a) + Starts(b)
  {
    if b == [] {
      assert a + b == a;
    } else {
      StartsOfBoth(a, b[..|b| - 1]);
      assert (a + b)[..|a + b| - 1] == a + b[..|b| - 1];
    }
  }

  // ---- serve -----------------------------------------------------------------

  /** What the outside answers to a call of the opening or of the end. */
  function Answer(script: Script, a: Action): Outcome {
    match a
    case StartHelper => script.helper
    case Prepare => script.prepared
    case StartEngine => script.engine
    case StopHelper => script.helperStopped
    case HelperLogs => script.helperLogged
    case _ => script.helperRemoved
  }

  ghost predicate Answered(script: Script, calls: seq<Call>) {
    forall i :: 0 <= i < |calls| ==> calls[i].outcome == Answer(script, calls[i].action)
  }

  /** A log is the life of a room: its four parts, each as the outside answered. */
  ghost predicate IsLife(script: Script, log: seq<Call>, ending: Ending, opening: seq<Call>, stop: seq<Call>,
                         close: seq<Call>, m: nat) {
    var watched := if EngineRuns(opening) then WatchOf(script.turns).calls else [];
    && ending == (if EngineRuns(opening) then WatchOf(script.turns).ending else CallFailed)
    && Shape(opening, watched, stop, close, m) && log == Whole(opening, watched, stop, close)
    && Answered(script, opening) && StopAnswered(script.stopping, stop) && Answered(script, close)
  }

  /** The controllers, then the emulator; the first failure ends the opening. */
  method Open(script: Script) returns (calls: seq<Call>)
    ensures Opens(calls) && |calls| >= 1 && Answered(script, calls)
    ensures EngineRuns(calls) ==> AllHarmless(calls)
  {
    calls := [Call(StartHelper, script.helper)];
    if script.helper.Fine? {
      calls := calls + [Call(Prepare, script.prepared)];
      if script.prepared.Fine? {
        calls := calls + [Call(StartEngine, script.engine)];
      }
    }
  }

  /** The controllers are stopped, their log kept, their container removed. */
  method Close(script: Script) returns (calls: seq<Call>, ok: bool)
    ensures Closes(calls) && Answered(script, calls)
    ensures ok <==> AllHarmless(calls)
  {
    hide AllHarmless;
    calls, ok := [Call(StopHelper, script.helperStopped)], script.helperStopped.Fine?;
    HarmlessOne(calls[0]);
    if ok {
      var logs, removal := Call(HelperLogs, script.helperLogged), Call(RemoveHelper, script.helperRemoved);
      HarmlessOne(logs);
      HarmlessOne(removal);
      HarmlessMore([logs], [removal]);
      HarmlessMore(calls, [logs] + [removal]);
      calls, ok := calls + ([logs] + [removal]), script.helperLogged.Fine? && script.helperRemoved.Fine?;
    }
  }

  lemma FineIsHarmless(calls: seq<Call>)
    requires AllFine(calls)
    ensures AllHarmless(calls)
  {
  }

  lemma NoCallIsSafe()
    ensures Safe([]) && AllHarmless([])
    ensures forall script :: Answered(script, [])
    ensures forall s :: StopAnswered(s, [])
  {
  }

  /** A whole room: whatever the outside answers, its end is orderly and no minute
      holds more than three capture starts. It ends without an error exactly when
      the room was closed and no call failed, but for a polite stop of captures. */
  method Serve(script: Script) returns (log: seq<Call>, ending: Ending, ok: bool)
    requires Monotone(script.turns)
    ensures exists opening, stop, close, m :: IsLife(script, log, ending, opening, stop, close, m)
    ensures Shutdown(log)
    ensures Sorted(Starts(log)) && Spaced(Starts(log))
    ensures ending.TooMany? ==>
              |Starts(log)| >= STARTS && ending.at - Starts(log)[|Starts(log)| - STARTS] < MINUTE
    ensures ok <==> ending.Closed? && AllHarmless(log)
  {
    hide Shutdown, Starts, Sorted, Spaced, AllHarmless, AllFine, Captured, Stops, Opens, Closes, Answered, StopAnswered,
      WatchOf, Laid;
    var opening := Open(script);
    var watched: seq<Call>, stop: seq<Call>, close: seq<Call> := [], [], [];
    ghost var m: nat := 0;
    var stopped, closed := true, true;
    ending := CallFailed;
    NoCallIsSafe();
    if EngineRuns(opening) {
      var capture: bool;
      watched, ending, capture := Watch(script.turns);
      stop, m, stopped := StopTheEngine(capture, script.stopping);
      if ending.Closed? {
        FineIsHarmless(watched);
      }
    }
    if opening[0].outcome.Fine? {
      close, closed := Close(script);
    }
    log := Whole(opening, watched, stop, close);
    ok := ending.Closed? && stopped && closed;
    HarmlessMore(opening + watched + stop, close);
    HarmlessMore(opening + watched, stop);
    HarmlessMore(opening, watched);
    ShapeIsShutdown(opening, watched, stop, close, m);
    assert IsLife(script, log, ending, opening, stop, close, m);
  }
}
