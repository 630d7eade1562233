/** The follower of the day's log: it hands on the lines added since its last
    reading (control/nel3ab_control/boite_noire/declencheur.py, class Suiveur). */
module Suiveur {
  import opened Common
  import J = Journal
  import R = JournalRuns

  const NEWLINE: Byte := 10

  // ---- cutting bytes into lines ----------------------------------------------

  /** Complete lines, without their newline, and the unfinished one. */
  datatype Cutting = Cutting(lines: seq<seq<Byte>>, rest: seq<Byte>)

  /** Where the first newline is; the length when there is none. */
  function FirstNewline(s: seq<Byte>): (n: nat)
    ensures n <= |s|
    ensures NEWLINE !in s[..n]
    ensures n < |s| ==> s[n] == NEWLINE
  {
    if s == [] || s[0] == NEWLINE then 0 else 1 + FirstNewline(s[1..])
  }

  /** The split on newlines. */
  function Cut(s: seq<Byte>): Cutting
    decreases |s|
  {
    var n := FirstNewline(s);
    if n == |s| then Cutting([], s)
    else
      var after := Cut(s[n + 1..]);
      Cutting([s[..n]] + after.lines, after.rest)
  }

  ghost predicate NoNewline(lines: seq<seq<Byte>>) {
    forall i :: 0 <= i < |lines| ==> NEWLINE !in lines[i]
  }

  lemma FirstNewlineIs(line: seq<Byte>, after: seq<Byte>)
    requires NEWLINE !in line
    ensures FirstNewline(line + [NEWLINE] + after) == |line|
  {
    var s := line + [NEWLINE] + after;
    var n := FirstNewline(s);
    assert forall i | 0 <= i < |line| :: s[i] == line[i] && s[i] in line;
    assert forall i | 0 <= i < n :: s[i] in s[..n];
    assert s[|line|] == NEWLINE;
  }

  /** A terminated line in front of anything is cut off as itself. */
  lemma CutOne(line: seq<Byte>, after: seq<Byte>)
    requires NEWLINE !in line
    ensures Cut(line + [NEWLINE] + after) == Cutting([line] + Cut(after).lines, Cut(after).rest)
  {
    FirstNewlineIs(line, after);
    var s := line + [NEWLINE] + after;
    assert s[..|line|] == line && s[|line| + 1..] == after;
  }

  lemma NoLinesIff(s: seq<Byte>)
    ensures Cut(s).lines == [] <==> NEWLINE !in s
    ensures NEWLINE !in s ==> Cut(s).rest == s
  {
    var n := FirstNewline(s);
    if n == |s| {
      assert s[..n] == s;
    }
  }

  /** Lines written one after the other, each with its newline, come back. */
  lemma {:induction false} CutInvertsTerminated(lines: seq<seq<Byte>>, rest: seq<Byte>)
    requires NoNewline(lines)
    ensures Cut(R.Terminated(lines) + rest) == Cutting(lines + Cut(rest).lines, Cut(rest).rest)
  {
    hide FirstNewline, Cut;
    if lines == [] {
      assert R.Terminated(lines) + rest == rest;
      assert lines + Cut(rest).lines == Cut(rest).lines;
    } else {
      var after := R.Terminated(lines[1..]) + rest;
      assert R.Terminated(lines) + rest == lines[0] + [NEWLINE] + after;
      CutOne(lines[0], after);
      CutInvertsTerminated(lines[1..], rest);
      assert [lines[0]] + (lines[1..] + Cut(rest).lines) == lines + Cut(rest).lines;
    }
  }

  /** The lines and the unfinished end are the bytes that were cut. */
  lemma {:induction false} CutConserves(s: seq<Byte>)
    ensures NoNewline(Cut(s).lines) && NEWLINE !in Cut(s).rest
    ensures R.Terminated(Cut(s).lines) + Cut(s).rest == s
    decreases |s|
  {
    hide FirstNewline, Cut;
    NoLinesIff(s);
    if NEWLINE !in s {
      assert R.Terminated([]) + s == s;
    } else {
      var n := FirstNewline(s);
      assert n < |s| by { assert s[..|s|] == s; }
      var line, after := s[..n], s[n + 1..];
      assert s == line + [NEWLINE] + after;
      CutOne(line, after);
      CutConserves(after);
      var lines := [line] + Cut(after).lines;
      assert lines[1..] == Cut(after).lines;
      assert R.Terminated(lines) + Cut(after).rest
          == line + [NEWLINE] + (R.Terminated(Cut(after).lines) + Cut(after).rest);
    }
  }

  /** Cutting can resume from the unfinished line. */
  lemma CutResumes(a: seq<Byte>, b: seq<Byte>)
    ensures Cut(a + b) == Cutting(Cut(a).lines + Cut(Cut(a).rest + b).lines, Cut(Cut(a).rest + b).rest)
  {
    hide FirstNewline, Cut;
    CutConserves(a);
    assert a + b == R.Terminated(Cut(a).lines) + (Cut(a).rest + b);
    CutInvertsTerminated(Cut(a).lines, Cut(a).rest + b);
  }

  // ---- the follower ----------------------------------------------------------

  /** What one poll finds at the path of its day: nothing, or a file with its
      inode and the bytes visible in it, which may refuse to be read. */
  datatype Look = Look(day: int, file: Option<(int, seq<Byte>)>, readable: bool)

  datatype State = State(day: Option<int>, inode: Option<int>, position: nat, rest: seq<Byte>)

  const FRESH := State(None, None, 0, [])

  /** The state once the path and the identity of the file have been looked at. */
  function Settled(st: State, look: Look): State {
    var st :=
      if st.day == Some(look.day) then st
      else State(Some(look.day),
                 if look.file.Some? then Some(look.file.value.0) else None,
                 if st.day.None? && look.file.Some? then |look.file.value.1| else 0,
                 []);
    match look.file
    case None => st
    case Some((inode, bytes)) =>
      if st.inode != Some(inode) || |bytes| < st.position then State(st.day, Some(inode), 0, []) else st
  }

  /** The lines one poll completes, and the state after it. */
  function Polled(st: State, look: Look): (r: (seq<seq<Byte>>, State)) {
    var st := Settled(st, look);
    if look.file.None? || |look.file.value.1| == st.position || !look.readable then ([], st)
    else
      var bytes := look.file.value.1;
      var cut := Cut(st.rest + bytes[st.position..]);
      (cut.lines, st.(position := |bytes|, rest := cut.rest))
  }

  /** The lines that decode, in order. */
  function Decoded<L>(lines: seq<seq<Byte>>, decode: seq<Byte> -> Option<L>): seq<L> {
    if lines == [] then []
    else
      var last := decode(lines[|lines| - 1]);
      Decoded(lines[..|lines| - 1], decode) + if last.Some? then [last.value] else []
  }

  /** A line that does not decode costs only itself; any other comes out where it stands. */
  lemma {:induction false} OnlyItself<L>(before: seq<seq<Byte>>, line: seq<Byte>, after: seq<seq<Byte>>,
                                         decode: seq<Byte> -> Option<L>)
    ensures Decoded(before + [line] + after, decode)
            == Decoded(before, decode) + (if decode(line).Some? then [decode(line).value] else [])
               + Decoded(after, decode)
    ensures Decoded<L>([], decode) == []
  {
    var all := before + [line] + after;
    if after == [] {
      assert all == before + [line] && all[..|all| - 1] == before;
    } else {
      var n := |after| - 1;
      OnlyItself(before, line, after[..n], decode);
      assert all[..|all| - 1] == before + [line] + after[..n];
    }
  }

  class Suiveur {
    var day: Option<int>
    var inode: Option<int>
    var position: nat
    var rest: seq<Byte>

    ghost function Value(): State
      reads this
    {
      State(day, inode, position, rest)
    }

    constructor ()
      ensures Value() == FRESH
    {
      day, inode, position, rest := None, None, 0, [];
    }

    /** One poll. `decode` is the UTF-8 and JSON reading of one line: `None` for
        a line that is not a JSON object. */
    method Nouvelles<L>(look: Look, decode: seq<Byte> -> Option<L>) returns (lignes: seq<L>)
      modifies this
      ensures Value() == Polled(old(Value()), look).1
      ensures lignes == Decoded(Polled(old(Value()), look).0, decode)
    {
      if day != Some(look.day) {
        var premier := day.None?;
        day := Some(look.day);
        rest := [];
        position := if premier && look.file.Some? then |look.file.value.1| else 0;
        inode := if look.file.Some? then Some(look.file.value.0) else None;
      }
      if look.file.None? {
        return [];
      }
      var (identity, bytes) := look.file.value;
      if inode != Some(identity) || |bytes| < position {
        inode, position, rest := Some(identity), 0, [];
      }
      if |bytes| == position || !look.readable {
        return [];
      }
      var piece := bytes[position..];
      position := |bytes|;
      var completes := Cut(rest + piece);
      rest := completes.rest;
      lignes := [];
      var k := 0;
      while k < |completes.lines|
        invariant 0 <= k <= |completes.lines|
        invariant lignes == Decoded(completes.lines[..k], decode)
      {
        assert completes.lines[..k + 1][..k] == completes.lines[..k];
        var ligne := decode(completes.lines[k]);
        if ligne.Some? {
          lignes := lignes + [ligne.value];
        }
        k := k + 1;
      }
      assert completes.lines[..k] == completes.lines;
    }
  }

  // ---- any polling schedule --------------------------------------------------

  /** Every line handed on by a schedule of polls, and the state after it. */
  function Followed(st: State, looks: seq<Look>): (seq<seq<Byte>>, State) {
    if looks == [] then ([], st)
    else
      var before := Followed(st, looks[..|looks| - 1]);
      var last := Polled(before.1, looks[|looks| - 1]);
      (before.0 + last.0, last.1)
  }

  /** The polls of one day that all meet one append-only file: when they see it,
      it has the same inode and a beginning of `bytes`, never shorter than what
      an earlier poll saw. */
  ghost predicate OneFile(looks: seq<Look>, day: int, inode: int, bytes: seq<Byte>) {
    && (forall i :: 0 <= i < |looks| ==> looks[i].day == day)
    && (forall i :: 0 <= i < |looks| && looks[i].file.Some? ==>
          looks[i].file.value.0 == inode && looks[i].file.value.1 <= bytes)
    && (forall i, j :: 0 <= i < j < |looks| && looks[i].file.Some? && looks[j].file.Some? ==>
          |looks[i].file.value.1| <= |looks[j].file.value.1|)
  }

  /** How far into the file the polls have read. The first poll of a fresh
      follower starts at the end of the file it meets. */
  function Reach(looks: seq<Look>, start: nat): nat {
    if looks == [] then start
    else
      var last := looks[|looks| - 1];
      if last.file.Some? && last.readable then |last.file.value.1|
      else Reach(looks[..|looks| - 1], start)
  }

  /** Where a schedule starts: at the size the first poll meets, or at zero when
      the file is not there yet or the follower comes from another day. */
  function Start(st: State, looks: seq<Look>): nat
    requires looks != []
  {
    if st.day.None? && looks[0].file.Some? then |looks[0].file.value.1| else 0
  }

  lemma {:induction false} ReachIsSeen(looks: seq<Look>, day: int, inode: int, bytes: seq<Byte>, st: State)
    requires looks != [] && OneFile(looks, day, inode, bytes)
    ensures Start(st, looks) <= Reach(looks, Start(st, looks)) <= |bytes|
    ensures forall i :: 0 <= i < |looks| && looks[i].file.Some? && i == |looks| - 1 ==>
              Reach(looks, Start(st, looks)) <= |looks[i].file.value.1|
    ensures Reach(looks, Start(st, looks)) == 0
            || exists i :: 0 <= i < |looks| && looks[i].file.Some?
                           && Reach(looks, Start(st, looks)) == |looks[i].file.value.1|
  {
    var earlier := looks[..|looks| - 1];
    if earlier != [] {
      ReachIsSeen(earlier, day, inode, bytes, st);
    }
  }

  /** The lines so far and the state are those of one file read from `start` to
      `reach`. */
  ghost predicate Caught(lines: seq<seq<Byte>>, st: State, day: int, inode: int, bytes: seq<Byte>,
                         start: nat, reach: nat) {
    && start <= reach <= |bytes|
    && Cutting(lines, st.rest) == Cut(bytes[start..reach])
    && st.day == Some(day) && st.position == reach
    && (st.inode == Some(inode) || (st.inode.None? && reach == 0))
  }

  /** What a poll brings the reading to. */
  function Next(look: Look, reach: nat): nat {
    if look.file.Some? && look.readable then |look.file.value.1| else reach
  }

  lemma FirstPoll(st: State, look: Look, inode: int, bytes: seq<Byte>)
    requires st.day != Some(look.day)
    requires look.file.Some? ==> look.file.value.0 == inode && look.file.value.1 <= bytes
    ensures var start := Start(st, [look]);
            Caught(Polled(st, look).0, Polled(st, look).1, look.day, inode, bytes, start, Next(look, start))
  {
    hide FirstNewline, Cut;
    NoLinesIff([]);
    if look.file.Some? {
      var seen, start := look.file.value.1, Start(st, [look]);
      assert bytes[start..|seen|] == seen[start..] == [] + seen[start..];
      assert bytes[start..start] == [];
    }
  }

  lemma NextPoll(lines: seq<seq<Byte>>, st: State, look: Look, inode: int, bytes: seq<Byte>,
                 start: nat, reach: nat)
    requires Caught(lines, st, look.day, inode, bytes, start, reach)
    requires look.file.Some? ==>
               look.file.value.0 == inode && look.file.value.1 <= bytes && reach <= |look.file.value.1|
    ensures Caught(lines + Polled(st, look).0, Polled(st, look).1, look.day, inode, bytes, start, Next(look, reach))
  {
    hide FirstNewline, Cut;
    assert lines + [] == lines;
    if look.file.Some? {
      var seen := look.file.value.1;
      NoLinesIff(bytes[start..reach]);
      if st.inode.None? {
        assert bytes[start..reach] == [];
      }
      assert bytes[start..|seen|] == bytes[start..reach] + seen[reach..];
      CutResumes(bytes[start..reach], seen[reach..]);
    }
  }

  /** For any polling schedule over one append-only file, of a follower that was
      not on that file before: the lines handed on are exactly the complete lines
      after the starting offset, each once and in order, and the unfinished end
      is kept. */
  lemma {:induction false} EachLineOnce(st: State, looks: seq<Look>, day: int, inode: int, bytes: seq<Byte>)
    requires looks != [] && st.day != Some(day) && OneFile(looks, day, inode, bytes)
    ensures var start := Start(st, looks);
            Caught(Followed(st, looks).0, Followed(st, looks).1, day, inode, bytes,
                   start, Reach(looks, start))
  {
    hide FirstNewline, Cut, Polled, Caught;
    var n := |looks| - 1;
    var earlier, look := looks[..n], looks[n];
    var start := Start(st, looks);
    if earlier == [] {
      FirstPoll(st, look, inode, bytes);
      assert Followed(st, earlier) == ([], st);
      assert [] + Polled(st, look).0 == Polled(st, look).0;
      assert Reach(looks, start) == Next(look, Reach(earlier, start)) == Next(look, start);
    } else {
      EachLineOnce(st, earlier, day, inode, bytes);
      ReachIsSeen(looks, day, inode, bytes, st);
      ReachIsSeen(earlier, day, inode, bytes, st);
      NextPoll(Followed(st, earlier).0, Followed(st, earlier).1, look, inode, bytes,
               start, Reach(earlier, start));
    }
  }

  // ---- a first poll inside a line --------------------------------------------

  lemma EndsALine(s: seq<Byte>)
    ensures Cut(s).rest == [] <==> s == [] || s[|s| - 1] == NEWLINE
  {
    hide FirstNewline, Cut;
    CutConserves(s);
    var lines, rest := Cut(s).lines, Cut(s).rest;
    if rest != [] {
      assert s[|s| - 1] == rest[|rest| - 1];
      assert rest[|rest| - 1] in rest;
    } else if lines != [] {
      var last := lines[|lines| - 1];
      assert lines == lines[..|lines| - 1] + [last];
      R.TerminatedOne(lines[..|lines| - 1], last);
    } else {
      assert R.Terminated([]) == [];
    }
  }

  /** The lines of a file from a place on are its own, but that the first of them lacks
      what came before the place. */
  lemma LinesFrom(bytes: seq<Byte>, start: nat, reach: nat)
    requires start <= reach <= |bytes|
    ensures var before, after := Cut(bytes[..start]), Cut(bytes[start..reach]).lines;
            Cut(bytes[..reach]).lines
            == before.lines + if after == [] then [] else [before.rest + after[0]] + after[1..]
  {
    hide FirstNewline, Cut;
    var a, b := bytes[..start], bytes[start..reach];
    assert bytes[..reach] == a + b;
    CutResumes(a, b);
    CutConserves(a);
    var rest := Cut(a).rest;
    NoLinesIff(b);
    NoLinesIff(rest + b);
    if NEWLINE in b {
      InFrontOfALine(rest, b);
    }
  }

  /** An unfinished line in front of some bytes lengthens the first of their lines. */
  lemma InFrontOfALine(rest: seq<Byte>, b: seq<Byte>)
    requires NEWLINE !in rest && NEWLINE in b
    ensures Cut(b).lines != []
    ensures Cut(rest + b).lines == [rest + Cut(b).lines[0]] + Cut(b).lines[1..]
  {
    hide FirstNewline, Cut;
    var n := FirstNewline(b);
    assert n < |b| by { assert b[..|b|] == b; }
    var line, after := b[..n], b[n + 1..];
    assert b == line + [NEWLINE] + after;
    assert rest + b == (rest + line) + [NEWLINE] + after;
    CutOne(line, after);
    CutOne(rest + line, after);
  }

  /** The lines a follower hands on are whole lines of the file if and only if the place it
      starts at is the beginning of a line, or no line has ended since; otherwise the first
      of them, and only that one, is the end of a line. */
  lemma AFirstPollInsideALineIff(st: State, looks: seq<Look>, day: int, inode: int, bytes: seq<Byte>)
    requires looks != [] && st.day != Some(day) && OneFile(looks, day, inode, bytes)
    ensures var start := Start(st, looks);
            var reach := Reach(looks, start);
            var before, lines := Cut(bytes[..start]), Followed(st, looks).0;
            && start <= reach <= |bytes|
            && Cut(bytes[..reach]).lines
               == before.lines + (if lines == [] then [] else [before.rest + lines[0]] + lines[1..])
            && (Cut(bytes[..reach]).lines == before.lines + lines
                <==> start == 0 || bytes[start - 1] == NEWLINE || NEWLINE !in bytes[start..reach])
  {
    hide FirstNewline, Cut, Polled, Followed;
    EachLineOnce(st, looks, day, inode, bytes);
    var start := Start(st, looks);
    var reach := Reach(looks, start);
    LinesFrom(bytes, start, reach);
    EndsALine(bytes[..start]);
    NoLinesIff(bytes[start..reach]);
    var before, lines := Cut(bytes[..start]), Followed(st, looks).0;
    if lines != [] {
      var whole := before.rest + lines[0];
      assert (before.lines + ([whole] + lines[1..]))[|before.lines|] == whole;
      assert (before.lines + lines)[|before.lines|] == lines[0];
      assert before.rest == [] ==> whole == lines[0] && [whole] + lines[1..] == lines;
      assert before.rest != [] ==> |whole| != |lines[0]|;
    }
  }

  /** A fresh follower that meets a line half written hands on its second half. */
  lemma HalfALine(day: int, inode: int, one: Byte, two: Byte)
    requires one != NEWLINE && two != NEWLINE
    ensures var first := Look(day, Some((inode, [one])), true);
            var second := Look(day, Some((inode, [one, two, NEWLINE])), true);
            Followed(FRESH, [first, second]).0 == [[two]]
  {
    var first, second := Look(day, Some((inode, [one])), true), Look(day, Some((inode, [one, two, NEWLINE])), true);
    hide FirstNewline, Cut;
    assert [first, second][..1] == [first] && [first][..0] == [];
    assert Polled(FRESH, first) == ([], State(Some(day), Some(inode), 1, []));
    assert [] + [one, two, NEWLINE][1..] == [two] + [NEWLINE] + [];
    CutOne([two], []);
    NoLinesIff([]);
    assert Followed(FRESH, []) == ([], FRESH);
    assert Followed(FRESH, [first]).1 == Polled(FRESH, first).1 && Followed(FRESH, [first]).0 == [];
    assert Polled(Polled(FRESH, first).1, second).0 == [[two]];
  }

  /** A poll that meets another file, or a file cut short, starts it from zero
      with nothing left over: what it hands on is that file's own lines. */
  lemma AnotherFileStartsAtZero(st: State, look: Look)
    requires st.day.Some? && look.file.Some? && look.readable
    requires st.day != Some(look.day) || st.inode != Some(look.file.value.0)
             || |look.file.value.1| < st.position
    ensures Polled(st, look).0 == Cut(look.file.value.1).lines
    ensures Polled(st, look).1
         == State(Some(look.day), Some(look.file.value.0), |look.file.value.1|, Cut(look.file.value.1).rest)
  {
    var bytes := look.file.value.1;
    assert [] + bytes[0..] == bytes;
    assert bytes == [] ==> Cut(bytes) == Cutting([], []);
  }

  // ---- a change of day -------------------------------------------------------

  /** A schedule can be followed in two parts. */
  lemma {:induction false} FollowedInTwo(st: State, a: seq<Look>, b: seq<Look>)
    ensures Followed(st, a + b)
            == (Followed(st, a).0 + Followed(Followed(st, a).1, b).0, Followed(Followed(st, a).1, b).1)
  {
    hide Polled;
    if b == [] {
      assert a + b == a && Followed(st, a).0 + [] == Followed(st, a).0;
    } else {
      var last := b[|b| - 1];
      FollowedInTwo(st, a, b[..|b| - 1]);
      assert (a + b)[..|a + b| - 1] == a + b[..|b| - 1];
      var first, second := Followed(st, a), Followed(Followed(st, a).1, b[..|b| - 1]);
      var third := Polled(second.1, last);
      assert first.0 + second.0 + third.0 == first.0 + (second.0 + third.0);
    }
  }

  /** What is left of a file after a place holds no complete line exactly when it has no
      newline. */
  lemma LinesAfterIff(bytes: seq<Byte>, start: nat, reach: nat)
    requires start <= reach <= |bytes|
    ensures Cut(bytes[start..reach]).lines <= Cut(bytes[start..]).lines
    ensures Cut(bytes[start..reach]).lines == Cut(bytes[start..]).lines <==> NEWLINE !in bytes[reach..]
  {
    hide FirstNewline, Cut;
    var a, b := bytes[start..reach], bytes[reach..];
    assert bytes[start..] == a + b;
    CutResumes(a, b);
    CutConserves(a);
    var rest := Cut(a).rest;
    NoLinesIff(rest + b);
    assert NEWLINE in rest + b <==> NEWLINE in b;
    assert Cut(a).lines + [] == Cut(a).lines;
  }

  /** A change of day: the polls of two days hand on the complete lines of the first file as
      far as its last reading, then those of the second from its beginning. What was added
      to the first file after that reading is abandoned: nothing is missed exactly when it
      held no newline. */
  lemma YesterdayIsLostIff(st: State, yesterday: seq<Look>, today: seq<Look>, day: int, next: int,
                           inode: int, other: int, past: seq<Byte>, present: seq<Byte>)
    requires yesterday != [] && today != [] && st.day != Some(day) && next != day
    requires OneFile(yesterday, day, inode, past) && OneFile(today, next, other, present)
    ensures var start := Start(st, yesterday);
            var reach, now := Reach(yesterday, start), Reach(today, 0);
            && start <= reach <= |past| && now <= |present|
            && Followed(st, yesterday + today).0 == Cut(past[start..reach]).lines + Cut(present[..now]).lines
            && (Followed(st, yesterday + today).0 == Cut(past[start..]).lines + Cut(present[..now]).lines
                <==> NEWLINE !in past[reach..])
  {
    hide FirstNewline, Cut, Polled, Followed;
    EachLineOnce(st, yesterday, day, inode, past);
    var mid := Followed(st, yesterday).1;
    EachLineOnce(mid, today, next, other, present);
    FollowedInTwo(st, yesterday, today);
    var start := Start(st, yesterday);
    var reach, now := Reach(yesterday, start), Reach(today, 0);
    assert present[0..now] == present[..now];
    LinesAfterIff(past, start, reach);
    var some, all, more := Cut(past[start..reach]).lines, Cut(past[start..]).lines, Cut(present[..now]).lines;
    if some != all {
      assert |some + more| < |all + more|;
    }
  }

  // ---- with the log that writes the file -------------------------------------

  /** From the log to the follower: when the polls of a day meet the file the log is
      writing, in whatever partial states its bytes become visible, the last poll sees all
      of it and no line of it was cut, then the lines handed on are the lines that entered
      the log that day after the follower's starting point, each once and in order, as far
      as they got into the file; and all of them exactly when none is waiting whole in the
      log's handle. */
  lemma EveryEventArrivesOnce(log: J.Log, events: seq<J.Event>, cfg: J.Config, day: int, inode: int,
                              st: State, looks: seq<Look>)
    requires J.Consistent(log) && R.Kept(events, cfg, day) && R.Lines(events)
    requires R.NothingCut(log, events, cfg, day) && R.Waiting(log, day) == []
    requires var whole := J.Content(R.Run(log, events, cfg).files, day);
             && looks != [] && st.day != Some(day) && OneFile(looks, day, inode, whole)
             && Start(st, looks) == |J.Content(log.files, day)|
             && looks[|looks| - 1] == Look(day, Some((inode, whole)), true)
    ensures Followed(st, looks).0 <= R.EnteredLines(log, events, cfg, day)
    ensures Followed(st, looks).0 == R.EnteredLines(log, events, cfg, day)
            <==> NEWLINE !in R.Waiting(R.Run(log, events, cfg), day)
  {
    hide FirstNewline, Cut, Polled, Followed, R.Run, R.EnteredLines, R.Reached, R.Terminated, R.Waiting, J.Content,
      J.Consistent, R.Kept, R.Lines, R.NothingCut;
    var before, reached := J.Content(log.files, day), R.Reached(log, events, cfg, day);
    var whole := before + reached;
    R.DayFileIsWhatReached(log, events, cfg, day);
    R.ReachedIsEntered(log, events, cfg, day);
    EachLineOnce(st, looks, day, inode, whole);
    assert whole[|before|..|whole|] == reached;
    LinesOfAPart(R.EnteredLines(log, events, cfg, day), reached, R.Waiting(R.Run(log, events, cfg), day), log, events,
                 cfg, day);
  }

  /** The lines of a beginning of some terminated lines. */
  lemma LinesOfAPart(lines: seq<seq<Byte>>, part: seq<Byte>, left: seq<Byte>, log: J.Log, events: seq<J.Event>,
                     cfg: J.Config, day: int)
    requires part + left == [] + R.Terminated(lines)
    requires R.Lines(events) && lines == R.EnteredLines(log, events, cfg, day)
    ensures Cut(part).lines <= lines && (Cut(part).lines == lines <==> NEWLINE !in left)
  {
    hide FirstNewline, Cut, R.Terminated, R.EnteredLines, R.Lines;
    EnteredHasNoNewline(log, events, cfg, day);
    CutInvertsTerminated(lines, []);
    NoLinesIff([]);
    var whole := R.Terminated(lines);
    assert whole + [] == whole && [] + whole == whole && lines + [] == lines;
    LinesAfterIff(whole, 0, |part|);
    assert whole[0..|part|] == part && whole[|part|..] == left && whole[0..] == whole;
  }

  lemma {:induction false} EnteredHasNoNewline(log: J.Log, events: seq<J.Event>, cfg: J.Config, day: int)
    requires R.Lines(events)
    ensures NoNewline(R.EnteredLines(log, events, cfg, day))
  {
    hide R.Entered, R.Run;
    if events != [] {
      EnteredHasNoNewline(log, events[..|events| - 1], cfg, day);
    }
  }
}
