/** What every run of the log keeps (control/nel3ab_control/journal.py): how many lines
    reach the files, which, and when the count of losses is right. */
module JournalRuns {
  import opened Common
  import opened Journal

  function Run(log: Log, events: seq<Event>, cfg: Config): Log {
    if events == [] then log else Wrote(Run(log, events[..|events| - 1], cfg), events[|events| - 1], cfg).0
  }

  /** Over every run that starts with a buffer within its room, the buffer of the kept handle
      stays so, whatever writes and closes fail. */
  lemma {:induction false} TheBufferHolds(log: Log, events: seq<Event>, cfg: Config)
    requires log.kept.Some? ==> Holds(log.kept.value.1, cfg.room)
    ensures Run(log, events, cfg).kept.Some? ==> Holds(Run(log, events, cfg).kept.value.1, cfg.room)
  {
    hide Holds, Put, Wrote;
    if events != [] {
      TheBufferHolds(log, events[..|events| - 1], cfg);
      OneCallHolds(Run(log, events[..|events| - 1], cfg), events[|events| - 1], cfg);
    }
  }

  lemma OneCallHolds(log: Log, e: Event, cfg: Config)
    requires log.kept.Some? ==> Holds(log.kept.value.1, cfg.room)
    ensures Wrote(log, e, cfg).0.kept.Some? ==> Holds(Wrote(log, e, cfg).0.kept.value.1, cfg.room)
  {
    hide Put, Holds;
    NothingWaits(cfg.room);
    var (ready, ok) := Opened(log, e, cfg.keeps);
    if ok && !Stuck(log, e) {
      RoomComesBack(ready.kept.value.1, Bytes(e), e.luck.takes, cfg.room);
    }
  }

  lemma NothingWaits(room: nat)
    ensures Holds(EMPTY, room) && Holds(Handle(true, [], 0), room)
  {
  }

  function Newlines(s: seq<Byte>): nat {
    if s == [] then 0 else Newlines(s[..|s| - 1]) + if s[|s| - 1] == NEWLINE then 1 else 0
  }

  lemma {:induction false} NewlinesOfBoth(a: seq<Byte>, b: seq<Byte>)
    ensures Newlines(a + b) == Newlines(a) + Newlines(b)
  {
    if b == [] {
      assert a + b == a;
    } else {
      NewlinesOfBoth(a, b[..|b| - 1]);
      assert (a + b)[..|a + b| - 1] == a + b[..|b| - 1];
    }
  }

  lemma {:induction false} NoNewlines(s: seq<Byte>)
    ensures Newlines(s) == 0 <==> NEWLINE !in s
  {
    if s != [] {
      NoNewlines(s[..|s| - 1]);
      assert s == s[..|s| - 1] + [s[|s| - 1]];
    }
  }

  // ---- one call --------------------------------------------------------------

  function Handled(log: Log, e: Event): Handle {
    if SameDay(log, e) then log.kept.value.1 else EMPTY
  }

  /** The call gets as far as a live handle. */
  predicate Reaches(log: Log, e: Event, cfg: Config) {
    Opened(log, e, cfg.keeps).1 && !Stuck(log, e)
  }

  /** The bytes a call puts in the file of its own day. */
  function OwnBytes(log: Log, e: Event, cfg: Config): seq<Byte> {
    if Reaches(log, e, cfg) then Put(Handled(log, e), Bytes(e), e.luck.takes, cfg.room).through else []
  }

  /** And in the file of the day it closes. */
  function OldBytes(log: Log, e: Event): seq<Byte> {
    if ClosesOne(log, e) then LastBytes(log, e) else []
  }

  function Through(log: Log, e: Event, cfg: Config, day: int): seq<Byte> {
    (if log.kept.Some? && log.kept.value.0 == day then OldBytes(log, e) else [])
    + if e.day == day then OwnBytes(log, e, cfg) else []
  }

  /** The bytes accepted for a day that are not in its file. */
  function Waiting(log: Log, day: int): seq<Byte> {
    if log.kept.Some? && log.kept.value.0 == day then log.kept.value.1.pending else []
  }

  predicate Entered(log: Log, e: Event, cfg: Config) {
    Reaches(log, e, cfg) && Enters(Handled(log, e), Bytes(e), e.luck.takes, cfg.room)
  }

  /** The call cuts a line of a day: its own, too long to be kept, or those a close gives
      up. */
  predicate CutsALine(log: Log, e: Event, cfg: Config, day: int) {
    || (ClosesOne(log, e) && log.kept.value.0 == day && e.luck.closing < |log.kept.value.1.pending|)
    || (e.day == day && Reaches(log, e, cfg) && Tears(Handled(log, e), Bytes(e), e.luck.takes, cfg.room))
  }

  /** A call adds to the file of a day that no sweep reaches the bytes it gets through, and
      nothing else. */
  lemma OneCall(log: Log, e: Event, cfg: Config, day: int)
    requires cfg.keeps >= 1 && e.day - (cfg.keeps - 1) <= day
    ensures Content(Wrote(log, e, cfg).0.files, day) == Content(log.files, day) + Through(log, e, cfg, day)
  {
    hide Put, Enters;
    assert Content(log.files, day) + [] == Content(log.files, day);
  }

  lemma HandledIs(log: Log, e: Event, cfg: Config)
    requires Consistent(log) && Reaches(log, e, cfg)
    ensures !Handled(log, e).closed
    ensures Wrote(log, e, cfg).0.kept
            == Some((e.day, Put(Handled(log, e), Bytes(e), e.luck.takes, cfg.room).handle))
    ensures Wrote(log, e, cfg).1
            == if Put(Handled(log, e), Bytes(e), e.luck.takes, cfg.room).ok then Written else Dropped
  {
    hide Put, Enters, Swept;
  }

  /** What a call does to what was waiting for its own day. */
  lemma OwnConserves(log: Log, e: Event, cfg: Config)
    requires Consistent(log) && Reaches(log, e, cfg)
    requires !Tears(Handled(log, e), Bytes(e), e.luck.takes, cfg.room)
    ensures OwnBytes(log, e, cfg) + Waiting(Wrote(log, e, cfg).0, e.day)
            == Handled(log, e).pending + if Entered(log, e, cfg) then Bytes(e) else []
  {
    hide Put, Enters, Tears, Wrote, Bytes;
    HandledIs(log, e, cfg);
    PutConserves(Handled(log, e), Bytes(e), e.luck.takes, cfg.room);
  }

  lemma OtherDay(log: Log, e: Event, cfg: Config, day: int)
    requires Consistent(log) && !CutsALine(log, e, cfg, day)
    requires e.day != day || !Reaches(log, e, cfg)
    ensures Through(log, e, cfg, day) + Waiting(Wrote(log, e, cfg).0, day) == Waiting(log, day)
  {
    hide Put, Enters, Tears, Swept, Appended;
    var pending := Waiting(log, day);
    assert pending[..|pending|] == pending;
  }

  /** Unless it cuts a line, a call neither loses nor invents a byte: what was waiting for
      a day, and its own line if that entered, is in the file or still waiting. */
  lemma CallConserves(log: Log, e: Event, cfg: Config, day: int)
    requires Consistent(log) && !CutsALine(log, e, cfg, day)
    ensures Through(log, e, cfg, day) + Waiting(Wrote(log, e, cfg).0, day)
            == Waiting(log, day) + if e.day == day && Entered(log, e, cfg) then Bytes(e) else []
  {
    hide Wrote, OwnBytes, Put, Enters, Tears, Bytes;
    if e.day == day && Reaches(log, e, cfg) {
      OwnConserves(log, e, cfg);
      assert Handled(log, e).pending == Waiting(log, day);
      assert Through(log, e, cfg, day) == OwnBytes(log, e, cfg);
    } else {
      OtherDay(log, e, cfg, day);
    }
  }

  // ---- counting --------------------------------------------------------------

  /** How many lines a call brings to their end in a file. */
  function Landed(log: Log, e: Event, cfg: Config): nat {
    Newlines(OldBytes(log, e)) + Newlines(OwnBytes(log, e, cfg))
  }

  /** What was waiting in the handle and gets through in this call. */
  function WaitingThrough(log: Log, e: Event): seq<Byte> {
    if ClosesOne(log, e) then LastBytes(log, e)
    else if SameDay(log, e) then
      var pending := log.kept.value.1.pending;
      pending[..if e.luck.takes < |pending| then e.luck.takes else |pending|]
    else []
  }

  /** How many lines that were counted as lost land all the same. */
  function Late(log: Log, e: Event): nat {
    Newlines(WaitingThrough(log, e))
  }

  /** One call is counted once: no handle left closed is in its way, and no line that was
      counted as lost comes through with it. */
  predicate CountsOnce(log: Log, e: Event) {
    !Stuck(log, e) && NEWLINE !in WaitingThrough(log, e)
  }

  /** What the own write of a call lands. */
  lemma OwnLanded(log: Log, e: Event, cfg: Config)
    requires Consistent(log) && NEWLINE !in e.line && Reaches(log, e, cfg)
    ensures var pending := Handled(log, e).pending;
            var n := if e.luck.takes < |pending| then e.luck.takes else |pending|;
            Newlines(OwnBytes(log, e, cfg))
            == Newlines(pending[..n]) + if Wrote(log, e, cfg).1 == Written then 1 else 0
  {
    hide Put, Enters, Newlines, Wrote;
    var h, bytes, takes := Handled(log, e), Bytes(e), e.luck.takes;
    HandledIs(log, e, cfg);
    PutConserves(h, bytes, takes, cfg.room);
    NewlinesOfBoth(h.pending, bytes);
    NewlinesOfLine(e);
    var own := OwnBytes(log, e, cfg);
    if takes < |h.pending| {
      assert own == (h.pending + bytes)[..takes] == h.pending[..takes];
    } else if !Put(h, bytes, takes, cfg.room).ok {
      var k := takes - |h.pending|;
      assert own == h.pending + bytes[..k] && bytes[..k] == e.line[..k] && h.pending[..|h.pending|] == h.pending;
      NewlinesOfBoth(h.pending, bytes[..k]);
      NoNewlines(e.line[..k]);
    } else {
      assert h.pending[..|h.pending|] == h.pending;
    }
  }

  lemma NewlinesOfLine(e: Event)
    requires NEWLINE !in e.line
    ensures Newlines(Bytes(e)) == 1
  {
    assert Bytes(e)[..|e.line|] == e.line;
    NoNewlines(e.line);
  }

  /** The account of one call: lines landed, losses counted and errors raised are the call
      itself and the lines counted as lost before that land with it. */
  lemma OneCallCounts(log: Log, e: Event, cfg: Config)
    requires Consistent(log) && NEWLINE !in e.line
    ensures var (after, outcome) := Wrote(log, e, cfg);
            && Landed(log, e, cfg) + after.dropped + (if outcome == Raised then 1 else 0)
               == log.dropped + 1 + Late(log, e)
            && (Landed(log, e, cfg) + after.dropped == log.dropped + 1 <==> CountsOnce(log, e))
  {
    hide Put, Enters, Newlines, Swept;
    NoNewlines(WaitingThrough(log, e));
    NoNewlines([]);
    if Reaches(log, e, cfg) {
      OwnLanded(log, e, cfg);
      HandledIs(log, e, cfg);
    }
  }

  function LandedCount(log: Log, events: seq<Event>, cfg: Config): nat {
    if events == [] then 0
    else
      var n := |events| - 1;
      LandedCount(log, events[..n], cfg) + Landed(Run(log, events[..n], cfg), events[n], cfg)
  }

  function LateCount(log: Log, events: seq<Event>, cfg: Config): nat {
    if events == [] then 0
    else
      var n := |events| - 1;
      LateCount(log, events[..n], cfg) + Late(Run(log, events[..n], cfg), events[n])
  }

  function RaisedCount(log: Log, events: seq<Event>, cfg: Config): nat {
    if events == [] then 0
    else
      var n := |events| - 1;
      RaisedCount(log, events[..n], cfg)
      + if Wrote(Run(log, events[..n], cfg), events[n], cfg).1 == Raised then 1 else 0
  }

  ghost predicate Lines(events: seq<Event>) {
    forall i :: 0 <= i < |events| ==> NEWLINE !in events[i].line
  }

  lemma {:induction false} RunIsConsistent(log: Log, events: seq<Event>, cfg: Config)
    requires Consistent(log)
    ensures Consistent(Run(log, events, cfg))
  {
    hide Wrote;
    if events != [] {
      RunIsConsistent(log, events[..|events| - 1], cfg);
      StaysConsistent(Run(log, events[..|events| - 1], cfg), events[|events| - 1], cfg);
    }
  }

  /** For events in any date order: the lines in the files, the losses counted and the
      errors raised are the calls and the lines that landed although counted as lost. */
  lemma {:induction false} EveryCallIsAccountedFor(log: Log, events: seq<Event>, cfg: Config)
    requires Consistent(log) && Lines(events)
    ensures LandedCount(log, events, cfg) + Run(log, events, cfg).dropped + RaisedCount(log, events, cfg)
            == log.dropped + |events| + LateCount(log, events, cfg)
    ensures Balanced(log, events, cfg) <==> LateCount(log, events, cfg) == RaisedCount(log, events, cfg)
  {
    hide Wrote, Landed, Late, Consistent;
    if events != [] {
      var early, e := events[..|events| - 1], events[|events| - 1];
      EveryCallIsAccountedFor(log, early, cfg);
      RunIsConsistent(log, early, cfg);
      OneCallCounts(Run(log, early, cfg), e, cfg);
    }
  }

  /** Lines in the files plus losses counted are the calls made. */
  predicate Balanced(log: Log, events: seq<Event>, cfg: Config) {
    LandedCount(log, events, cfg) + Run(log, events, cfg).dropped == log.dropped + |events|
  }

  /** They are at every moment of a run if and only if every call of it is counted once. */
  lemma {:induction false} BalancedIff(log: Log, events: seq<Event>, cfg: Config)
    requires Consistent(log) && Lines(events)
    ensures (forall k :: 0 <= k <= |events| ==> Balanced(log, events[..k], cfg))
            <==> forall i :: 0 <= i < |events| ==> CountsOnce(Run(log, events[..i], cfg), events[i])
  {
    hide Wrote, Landed, Consistent, CountsOnce, Run, LandedCount;
    if events == [] {
      NothingRun(log, cfg);
    } else {
      var n := |events| - 1;
      var early, e := events[..n], events[n];
      BalancedIff(log, early, cfg);
      assert forall k :: 0 <= k <= n ==> early[..k] == events[..k];
      assert events[..n + 1] == events;
      RunIsConsistent(log, early, cfg);
      OneCallCounts(Run(log, early, cfg), e, cfg);
      RunMore(log, events, cfg);
      assert early[..n] == early && events[..n] == early;
      assert (forall k :: 0 <= k <= |events| ==> Balanced(log, events[..k], cfg))
        <==> (forall k :: 0 <= k <= n ==> Balanced(log, early[..k], cfg)) && Balanced(log, events, cfg);
    }
  }

  lemma NothingRun(log: Log, cfg: Config)
    ensures Run(log, [], cfg) == log && LandedCount(log, [], cfg) == 0
  {
  }

  lemma RunMore(log: Log, events: seq<Event>, cfg: Config)
    requires events != []
    ensures var n := |events| - 1;
            var before := Run(log, events[..n], cfg);
            && Run(log, events, cfg) == Wrote(before, events[n], cfg).0
            && LandedCount(log, events, cfg) == LandedCount(log, events[..n], cfg) + Landed(before, events[n], cfg)
  {
  }

  // ---- the file of a day -----------------------------------------------------

  function Terminated(lines: seq<seq<Byte>>): seq<Byte> {
    if lines == [] then [] else lines[0] + [NEWLINE] + Terminated(lines[1..])
  }

  lemma {:induction false} TerminatedAppend(a: seq<seq<Byte>>, b: seq<seq<Byte>>)
    ensures Terminated(a + b) == Terminated(a) + Terminated(b)
  {
    if a == [] {
      assert a + b == b;
    } else {
      assert (a + b)[1..] == a[1..] + b;
      TerminatedAppend(a[1..], b);
    }
  }

  lemma TerminatedOne(lines: seq<seq<Byte>>, line: seq<Byte>)
    ensures Terminated(lines + [line]) == Terminated(lines) + (line + [NEWLINE])
  {
    TerminatedAppend(lines, [line]);
    assert Terminated([line]) == line + [NEWLINE] + Terminated([]);
  }

  /** The lines of a day that entered the log, returned from or not, in order of the calls. */
  function EnteredLines(log: Log, events: seq<Event>, cfg: Config, day: int): seq<seq<Byte>> {
    if events == [] then []
    else
      var n := |events| - 1;
      EnteredLines(log, events[..n], cfg, day)
      + if events[n].day == day && Entered(Run(log, events[..n], cfg), events[n], cfg) then [events[n].line] else []
  }

  /** Those whose call returned. */
  function WrittenLines(log: Log, events: seq<Event>, cfg: Config, day: int): seq<seq<Byte>> {
    if events == [] then []
    else
      var n := |events| - 1;
      WrittenLines(log, events[..n], cfg, day)
      + if events[n].day == day && Wrote(Run(log, events[..n], cfg), events[n], cfg).1 == Written
        then [events[n].line] else []
  }

  /** The bytes a run puts in the file of a day. */
  function Reached(log: Log, events: seq<Event>, cfg: Config, day: int): seq<Byte> {
    if events == [] then []
    else
      var n := |events| - 1;
      Reached(log, events[..n], cfg, day) + Through(Run(log, events[..n], cfg), events[n], cfg, day)
  }

  /** No event is so late that its sweep would take the file of the day. */
  ghost predicate Kept(events: seq<Event>, cfg: Config, day: int) {
    cfg.keeps >= 1 && forall i :: 0 <= i < |events| ==> events[i].day - (cfg.keeps - 1) <= day
  }

  ghost predicate NothingCut(log: Log, events: seq<Event>, cfg: Config, day: int) {
    forall i :: 0 <= i < |events| ==> !CutsALine(Run(log, events[..i], cfg), events[i], cfg, day)
  }

  lemma {:induction false} DayFileIsWhatReached(log: Log, events: seq<Event>, cfg: Config, day: int)
    requires Kept(events, cfg, day)
    ensures Content(Run(log, events, cfg).files, day) == Content(log.files, day) + Reached(log, events, cfg, day)
  {
    hide Wrote, Through, Content;
    if events == [] {
      assert Content(log.files, day) + [] == Content(log.files, day);
    } else {
      var n := |events| - 1;
      DayFileIsWhatReached(log, events[..n], cfg, day);
      OneCall(Run(log, events[..n], cfg), events[n], cfg, day);
    }
  }

  lemma {:induction false} ReachedIsEntered(log: Log, events: seq<Event>, cfg: Config, day: int)
    requires Consistent(log) && NothingCut(log, events, cfg, day)
    ensures Reached(log, events, cfg, day) + Waiting(Run(log, events, cfg), day)
            == Waiting(log, day) + Terminated(EnteredLines(log, events, cfg, day))
  {
    hide Wrote, Through, Waiting, Entered, CutsALine, Terminated, Consistent;
    NothingTerminated();
    if events == [] {
      assert [] + Waiting(log, day) == Waiting(log, day) + [];
    } else {
      var n := |events| - 1;
      var early, e := events[..n], events[n];
      assert forall i :: 0 <= i < n ==> early[..i] == events[..i];
      ReachedIsEntered(log, early, cfg, day);
      RunIsConsistent(log, early, cfg);
      var before := Run(log, early, cfg);
      CallConserves(before, e, cfg, day);
      var lines := EnteredLines(log, early, cfg, day);
      TerminatedOne(lines, e.line);
      Regroup(Reached(log, early, cfg, day), Waiting(before, day), Waiting(log, day), Terminated(lines),
              Through(before, e, cfg, day), Waiting(Run(log, events, cfg), day),
              if e.day == day && Entered(before, e, cfg) then Bytes(e) else []);
      assert Terminated(lines) + [] == Terminated(lines) && lines + [] == lines;
    }
  }

  lemma NothingTerminated()
    ensures Terminated([]) == []
  {
  }

  lemma Regroup(reached: seq<Byte>, waiting: seq<Byte>, start: seq<Byte>, lines: seq<Byte>, more: seq<Byte>,
                left: seq<Byte>, line: seq<Byte>)
    requires reached + waiting == start + lines && more + left == waiting + line
    ensures reached + more + left == start + (lines + line)
  {
    assert reached + more + left == reached + (more + left) == reached + waiting + line;
  }

  /** For events in any date order: as long as no line is cut, the file of a day that stays
      within the kept range, followed by what still waits for it, is what these were before,
      followed by exactly the lines of that day that entered, each once and in order of the
      calls: those that were lost never entered, those that wait or land late did. */
  lemma DayFileIsItsEvents(log: Log, events: seq<Event>, cfg: Config, day: int)
    requires Consistent(log) && Kept(events, cfg, day) && NothingCut(log, events, cfg, day)
    ensures Content(Run(log, events, cfg).files, day) + Waiting(Run(log, events, cfg), day)
            == Content(log.files, day) + Waiting(log, day) + Terminated(EnteredLines(log, events, cfg, day))
  {
    hide Run, Content, Waiting, Terminated, EnteredLines, Reached, Consistent, Kept, NothingCut;
    DayFileIsWhatReached(log, events, cfg, day);
    ReachedIsEntered(log, events, cfg, day);
    var before, after := Content(log.files, day), Waiting(Run(log, events, cfg), day);
    assert before + Reached(log, events, cfg, day) + after == before + (Reached(log, events, cfg, day) + after);
    assert before + Waiting(log, day) + Terminated(EnteredLines(log, events, cfg, day))
        == before + (Waiting(log, day) + Terminated(EnteredLines(log, events, cfg, day)));
  }

  // ---- when the file holds the lines that were not lost ----------------------

  /** What the system answers to this call lets no byte of a line counted as lost into the
      file of a day: nothing waits for that day, or none of it goes out; and the call's own
      line goes out whole by itself, or none of it does. */
  predicate NoStray(log: Log, e: Event, cfg: Config, day: int) {
    && (ClosesOne(log, e) && log.kept.value.0 == day ==> log.kept.value.1.pending == [] || e.luck.closing == 0)
    && (e.day == day && Reaches(log, e, cfg) ==>
          e.luck.takes == 0 || (Handled(log, e).pending == [] && e.luck.takes >= |Bytes(e)|))
  }

  function OwnLine(log: Log, e: Event, cfg: Config, day: int): seq<Byte> {
    if e.day == day && Wrote(log, e, cfg).1 == Written then Bytes(e) else []
  }

  lemma OwnStrayIff(log: Log, e: Event, cfg: Config)
    requires Consistent(log) && Reaches(log, e, cfg)
    ensures var own, line := OwnBytes(log, e, cfg), if Wrote(log, e, cfg).1 == Written then Bytes(e) else [];
            var alone := e.luck.takes == 0 || (Handled(log, e).pending == [] && e.luck.takes >= |Bytes(e)|);
            |own| >= |line| && (alone <==> own == line) && (alone <==> |own| == |line|)
  {
    hide Put, Enters, Wrote;
    var h := Handled(log, e);
    HandledIs(log, e, cfg);
    PutConserves(h, Bytes(e), e.luck.takes, cfg.room);
    if Wrote(log, e, cfg).1 == Written && h.pending == [] {
      assert h.pending + Bytes(e) == Bytes(e);
    }
  }

  /** Then, and only then, a call puts in that file nothing but its own line, when it
      returns. */
  lemma StrayIff(log: Log, e: Event, cfg: Config, day: int)
    requires Consistent(log)
    ensures |Through(log, e, cfg, day)| >= |OwnLine(log, e, cfg, day)|
    ensures NoStray(log, e, cfg, day) <==> Through(log, e, cfg, day) == OwnLine(log, e, cfg, day)
    ensures NoStray(log, e, cfg, day) <==> |Through(log, e, cfg, day)| == |OwnLine(log, e, cfg, day)|
  {
    hide Put, Enters, Swept, Appended, Bytes;
    if Reaches(log, e, cfg) {
      OwnStrayIff(log, e, cfg);
    }
  }

  /** The file of a day is what it was followed by exactly the lines of the calls that
      returned, if and only if no byte of a line counted as lost ever got through. */
  lemma {:induction false} OnlyWrittenLinesIff(log: Log, events: seq<Event>, cfg: Config, day: int)
    requires Consistent(log)
    ensures |Reached(log, events, cfg, day)| >= |Terminated(WrittenLines(log, events, cfg, day))|
    ensures Reached(log, events, cfg, day) == Terminated(WrittenLines(log, events, cfg, day))
            <==> forall i :: 0 <= i < |events| ==> NoStray(Run(log, events[..i], cfg), events[i], cfg, day)
    ensures |Reached(log, events, cfg, day)| == |Terminated(WrittenLines(log, events, cfg, day))|
            ==> Reached(log, events, cfg, day) == Terminated(WrittenLines(log, events, cfg, day))
  {
    hide Wrote, Through, NoStray, Terminated, Consistent, OwnLine;
    NothingTerminated();
    if events != [] {
      var n := |events| - 1;
      var early, e := events[..n], events[n];
      assert forall i :: 0 <= i < n ==> early[..i] == events[..i];
      OnlyWrittenLinesIff(log, early, cfg, day);
      RunIsConsistent(log, early, cfg);
      var before := Run(log, early, cfg);
      StrayIff(before, e, cfg, day);
      WrittenMore(log, events, cfg, day);
    }
  }

  lemma WrittenMore(log: Log, events: seq<Event>, cfg: Config, day: int)
    requires events != []
    ensures var n := |events| - 1;
            Terminated(WrittenLines(log, events, cfg, day))
            == Terminated(WrittenLines(log, events[..n], cfg, day))
               + OwnLine(Run(log, events[..n], cfg), events[n], cfg, day)
  {
    hide Wrote, Terminated, Run;
    var n := |events| - 1;
    var lines := WrittenLines(log, events[..n], cfg, day);
    TerminatedOne(lines, events[n].line);
    assert lines + [] == lines && Terminated(lines) + [] == Terminated(lines);
  }

  /** The same of the file itself, for a day that stays within the kept range. */
  lemma DayFileIsWrittenIff(log: Log, events: seq<Event>, cfg: Config, day: int)
    requires Consistent(log) && Kept(events, cfg, day)
    ensures Content(Run(log, events, cfg).files, day)
            == Content(log.files, day) + Terminated(WrittenLines(log, events, cfg, day))
            <==> forall i :: 0 <= i < |events| ==> NoStray(Run(log, events[..i], cfg), events[i], cfg, day)
  {
    hide Run, Content, Terminated, WrittenLines, Reached, Consistent, Kept, NoStray;
    DayFileIsWhatReached(log, events, cfg, day);
    OnlyWrittenLinesIff(log, events, cfg, day);
    var before, reached := Content(log.files, day), Reached(log, events, cfg, day);
    var lines := Terminated(WrittenLines(log, events, cfg, day));
    assert (before + reached)[|before|..] == reached && (before + lines)[|before|..] == lines;
  }

  /** Two calls, the first counted as lost while the system takes nothing, the second
      returned: both lines are in the file, and lines plus losses are three. */
  lemma ALateLine(day: int, one: seq<Byte>, two: seq<Byte>, cfg: Config)
    requires NEWLINE !in one && NEWLINE !in two && |one| + |two| + 2 < cfg.room
    ensures var luck := Luck(0, true, true, true, 0, true, {});
            var events := [Event(day, one, luck), Event(day, two, luck.(takes := |one| + |two| + 2))];
            var log := Log(map[], None, 0);
            && Run(log, events, cfg).dropped == 1 && !Balanced(log, events, cfg)
            && OwnBytes(Run(log, events[..1], cfg), events[1], cfg) == one + [NEWLINE] + two + [NEWLINE]
  {
    hide LandedCount, Newlines, Wrote, OwnBytes, CountsOnce;
    var luck := Luck(0, true, true, true, 0, true, {});
    var events := [Event(day, one, luck), Event(day, two, luck.(takes := |one| + |two| + 2))];
    var log := Log(map[], None, 0);
    assert events[..0] == [] && events[..1][..0] == [] && events[..2] == events;
    RunMore(log, events[..1], cfg);
    TheFirstIsLost(day, one, cfg);
    var first := Run(log, events[..1], cfg);
    RunMore(log, events, cfg);
    TheSecondReturns(first, day, one, two, cfg);
    OneCallCounts(log, events[0], cfg);
    OneCallCounts(first, events[1], cfg);
    NothingRun(log, cfg);
  }

  lemma TheFirstIsLost(day: int, one: seq<Byte>, cfg: Config)
    requires |one| + 1 < cfg.room
    ensures var after := Wrote(Log(map[], None, 0), Event(day, one, Luck(0, true, true, true, 0, true, {})), cfg).0;
            after.kept == Some((day, Handle(false, one + [NEWLINE], |one| + 1))) && after.dropped == 1
  {
    hide Swept, Appended;
  }

  lemma TheSecondReturns(log: Log, day: int, one: seq<Byte>, two: seq<Byte>, cfg: Config)
    requires log.kept == Some((day, Handle(false, one + [NEWLINE], |one| + 1))) && |one| + |two| + 2 < cfg.room
    ensures var e := Event(day, two, Luck(0, true, true, true, |one| + |two| + 2, true, {}));
            && Wrote(log, e, cfg).0.dropped == log.dropped && !CountsOnce(log, e)
            && OwnBytes(log, e, cfg) == one + [NEWLINE] + two + [NEWLINE]
  {
    hide Swept, Appended;
    var e := Event(day, two, Luck(0, true, true, true, |one| + |two| + 2, true, {}));
    assert WaitingThrough(log, e) == one + [NEWLINE];
    assert (one + [NEWLINE])[|one|] == NEWLINE;
  }

  /** A change of day whose close raises counts its event as lost and leaves the closed
      handle and its day in place: the event after it raises, leaving everything as it is,
      if and only if it is of that day. */
  lemma AfterAFailedClose(log: Log, e: Event, later: Event, cfg: Config)
    requires CloseRaises(log, e)
    ensures Wrote(log, e, cfg).1 == Dropped && Wrote(log, e, cfg).0.dropped == log.dropped + 1
    ensures var after := Wrote(log, e, cfg).0;
            && (Wrote(after, later, cfg).1 == Raised <==> later.day == log.kept.value.0)
            && (later.day == log.kept.value.0 ==> Wrote(after, later, cfg).0 == after)
  {
    hide Put, Swept;
  }
}
