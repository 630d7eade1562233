/** The trigger: which rooms go badly, said once
    (control/nel3ab_control/boite_noire/declencheur.py, class Declencheur). */
module Declencheur {
  import opened Common

  /** Instants and durations, in microseconds. */
  type Instant = int

  /** A room number, or none for a page without one. */
  type Room = Option<int>

  // ---- one line of the room's log --------------------------------------------

  /** A JSON scalar where the reader expects a number. */
  datatype Value = Int(i: int) | Float(f: real) | Bool(b: bool) | Other

  /** The reading of the date field: an instant with a zone, one without, or no date. */
  datatype When = Aware(at: Instant) | Naive | NoDate

  datatype Seen = Seen(gameRate: Value, arrivals: Option<seq<Value>>)

  datatype Place = Place(game: string, number: Value)

  /** A line of the log; `seen` and `place` are present when they are objects. */
  datatype Line = Line(what: string, bench: bool, seen: Option<Seen>, place: Option<Place>,
                       when: When, visit: string)

  datatype Measure = Measure(at: Instant, visit: string, rate: real, game: string, freeze: real)

  function Number(v: Value): Option<real> {
    match v
    case Int(i) => Some(i as real)
    case Float(f) => Some(f)
    case _ => None
  }

  /** The useful measure of a line, with its room. */
  function Useful(line: Line): Option<(Room, Measure)> {
    if line.what != "mesures" || line.bench then None
    else if line.seen.None? || line.place.None? || line.place.value.game == "" then None
    else
      var rate := Number(line.seen.value.gameRate);
      if rate.None? || rate.value <= 0.0 || !line.when.Aware? then None
      else
        var room := if line.place.value.number.Int? then Some(line.place.value.number.i) else None;
        var arrivals := line.seen.value.arrivals;
        var worst := if arrivals.Some? && |arrivals.value| == 3 then Number(arrivals.value[2]) else None;
        Some((room, Measure(line.when.at, line.visit, rate.value, line.place.value.game,
                            if worst.Some? then worst.value else 0.0)))
  }

  /** A JSON number, and not a truth value. */
  predicate IsNumber(v: Value, x: real) {
    v == Float(x) || (v.Int? && v.i as real == x)
  }

  /** Which lines are measures of a room: those of the page, not of the bench, that say what
      was seen, in which game, at a dated instant with a zone, with a rate above zero; the room
      is a whole number or none, and the worst gap is the third of three arrivals, or nothing. */
  lemma WhichMeasuresJoin(line: Line, room: Room, m: Measure)
    ensures Useful(line) == Some((room, m))
            <==> && line.what == "mesures" && !line.bench && line.seen.Some? && line.place.Some?
                 && line.place.value.game != "" && line.when == Aware(m.at)
                 && IsNumber(line.seen.value.gameRate, m.rate) && m.rate > 0.0
                 && m.visit == line.visit && m.game == line.place.value.game
                 && (match room
                     case Some(number) => line.place.value.number == Int(number)
                     case None => !line.place.value.number.Int?)
                 && (if exists x :: WorstGap(line.seen.value, x) then WorstGap(line.seen.value, m.freeze)
                     else m.freeze == 0.0)
  {
    if line.seen.Some? {
      var seen := line.seen.value;
      forall x, y | WorstGap(seen, x) && WorstGap(seen, y)
        ensures x == y
      {
      }
      if seen.arrivals.Some? && |seen.arrivals.value| == 3 && Number(seen.arrivals.value[2]).Some? {
        assert WorstGap(seen, Number(seen.arrivals.value[2]).value);
      }
    }
  }

  predicate WorstGap(seen: Seen, x: real) {
    seen.arrivals.Some? && |seen.arrivals.value| == 3 && IsNumber(seen.arrivals.value[2], x)
  }

  // ---- the median ------------------------------------------------------------

  ghost predicate Sorted(s: seq<real>) {
    forall i, j :: 0 <= i < j < |s| ==> s[i] <= s[j]
  }

  function Insert(x: real, s: seq<real>): (r: seq<real>)
    requires Sorted(s)
    ensures Sorted(r) && |r| == |s| + 1
    ensures r[0] == x || (s != [] && r[0] == s[0])
  {
    if s == [] || x <= s[0] then [x] + s else [s[0]] + Insert(x, s[1..])
  }

  function Sort(s: seq<real>): (r: seq<real>)
    ensures Sorted(r) && |r| == |s|
  {
    if s == [] then [] else Insert(s[0], Sort(s[1..]))
  }

  function Median(s: seq<real>): real
    requires s != []
  {
    var r := Sort(s);
    if |r| % 2 == 1 then r[|r| / 2] else (r[|r| / 2 - 1] + r[|r| / 2]) / 2.0
  }

  /** How many values are under the threshold. */
  function Under(s: seq<real>, threshold: real): (n: nat)
    ensures n <= |s|
  {
    if s == [] then 0 else (if s[0] < threshold then 1 else 0) + Under(s[1..], threshold)
  }

  lemma {:induction false} UnderOfInsert(x: real, s: seq<real>, threshold: real)
    requires Sorted(s)
    ensures Under(Insert(x, s), threshold) == Under([x] + s, threshold)
  {
    if s != [] && x > s[0] {
      UnderOfInsert(x, s[1..], threshold);
      assert ([s[0]] + Insert(x, s[1..]))[1..] == Insert(x, s[1..]);
      assert ([x] + s)[1..] == s && ([x] + s[1..])[1..] == s[1..];
    }
  }

  lemma {:induction false} UnderOfSort(s: seq<real>, threshold: real)
    ensures Under(Sort(s), threshold) == Under(s, threshold)
  {
    if s != [] {
      UnderOfSort(s[1..], threshold);
      UnderOfInsert(s[0], Sort(s[1..]), threshold);
      assert ([s[0]] + Sort(s[1..]))[1..] == Sort(s[1..]);
    }
  }

  /** In a sorted sequence the values under the threshold are the first ones. */
  lemma {:induction false} UnderOfSorted(s: seq<real>, threshold: real, k: nat)
    requires Sorted(s) && k < |s|
    ensures s[k] < threshold <==> k < Under(s, threshold)
  {
    if s[0] < threshold {
      if k > 0 {
        UnderOfSorted(s[1..], threshold, k - 1);
      }
    } else {
      NoneUnder(s, threshold);
    }
  }

  lemma {:induction false} NoneUnder(s: seq<real>, threshold: real)
    requires forall i :: 0 <= i < |s| ==> s[i] >= threshold
    ensures Under(s, threshold) == 0
  {
    if s != [] {
      NoneUnder(s[1..], threshold);
    }
  }

  /** The median against a threshold: strictly more than half of the values under
      it put the median under it, strictly more than half at or above it keep the
      median there, and with an odd number of values one of the two is the case. */
  lemma MedianFollowsTheMajority(s: seq<real>, threshold: real)
    requires s != []
    ensures 2 * Under(s, threshold) > |s| ==> Median(s) < threshold
    ensures 2 * Under(s, threshold) < |s| ==> Median(s) >= threshold
    ensures |s| % 2 == 1 ==> (Median(s) < threshold <==> 2 * Under(s, threshold) > |s|)
  {
    hide Sort, Under;
    var r := Sort(s);
    UnderOfSort(s, threshold);
    UnderOfSorted(r, threshold, |r| / 2);
    if |r| % 2 == 0 {
      UnderOfSorted(r, threshold, |r| / 2 - 1);
    }
  }

  /** How many values are at most a bound. */
  function AtMost(s: seq<real>, bound: real): (n: nat)
    ensures n <= |s|
  {
    if s == [] then 0 else (if s[0] <= bound then 1 else 0) + AtMost(s[1..], bound)
  }

  lemma {:induction false} AtMostOfInsert(x: real, s: seq<real>, bound: real)
    requires Sorted(s)
    ensures AtMost(Insert(x, s), bound) == AtMost([x] + s, bound)
  {
    if s != [] && x > s[0] {
      AtMostOfInsert(x, s[1..], bound);
      assert ([s[0]] + Insert(x, s[1..]))[1..] == Insert(x, s[1..]);
      assert ([x] + s)[1..] == s && ([x] + s[1..])[1..] == s[1..];
    }
  }

  lemma {:induction false} AtMostOfSort(s: seq<real>, bound: real)
    ensures AtMost(Sort(s), bound) == AtMost(s, bound)
  {
    if s != [] {
      AtMostOfSort(s[1..], bound);
      AtMostOfInsert(s[0], Sort(s[1..]), bound);
      assert ([s[0]] + Sort(s[1..]))[1..] == Sort(s[1..]);
    }
  }

  lemma {:induction false} AtMostOfSorted(s: seq<real>, bound: real, k: nat)
    requires Sorted(s) && k < |s|
    ensures s[k] <= bound <==> k < AtMost(s, bound)
  {
    if s[0] <= bound {
      if k > 0 {
        AtMostOfSorted(s[1..], bound, k - 1);
      }
    } else {
      NoneAtMost(s, bound);
    }
  }

  lemma {:induction false} NoneAtMost(s: seq<real>, bound: real)
    requires forall i :: 0 <= i < |s| ==> s[i] > bound
    ensures AtMost(s, bound) == 0
  {
    if s != [] {
      NoneAtMost(s[1..], bound);
    }
  }

  /** A value has a rank: so many are under it, and the next ones are at most it. */
  predicate Ranks(s: seq<real>, k: nat, value: real) {
    Under(s, value) <= k < AtMost(s, value)
  }

  /** The median is the mean of the values of the two middle ranks, which are the same rank
      when there is an odd number of values. */
  lemma MedianIsTheMiddle(s: seq<real>, low: real, high: real)
    requires s != [] && Ranks(s, (|s| - 1) / 2, low) && Ranks(s, |s| / 2, high)
    ensures Median(s) == (low + high) / 2.0
  {
    hide Sort, Under, AtMost;
    var r := Sort(s);
    RankedIs(s, (|s| - 1) / 2, low);
    RankedIs(s, |s| / 2, high);
    assert |r| % 2 == 1 ==> (|s| - 1) / 2 == |s| / 2;
    assert |r| % 2 == 0 ==> (|s| - 1) / 2 == |s| / 2 - 1;
  }

  lemma RankedIs(s: seq<real>, k: nat, value: real)
    requires k < |s|
    ensures Ranks(s, k, value) <==> Sort(s)[k] == value
  {
    hide Sort, Under, AtMost;
    UnderOfSort(s, value);
    AtMostOfSort(s, value);
    UnderOfSorted(Sort(s), value, k);
    AtMostOfSorted(Sort(s), value, k);
  }

  /** There are such values. */
  lemma MiddlesExist(s: seq<real>) returns (low: real, high: real)
    requires s != []
    ensures Ranks(s, (|s| - 1) / 2, low) && Ranks(s, |s| / 2, high) && Median(s) == (low + high) / 2.0
  {
    hide Sort, Ranks;
    low, high := Sort(s)[(|s| - 1) / 2], Sort(s)[|s| / 2];
    RankedIs(s, (|s| - 1) / 2, low);
    RankedIs(s, |s| / 2, high);
    MedianIsTheMiddle(s, low, high);
  }

  /** The largest value under a threshold and the smallest at or above it. */
  ghost predicate Parts(s: seq<real>, threshold: real, low: real, high: real) {
    && low in s && high in s && low < threshold <= high
    && (forall x :: x in s && x < threshold ==> x <= low)
    && (forall x :: x in s && x >= threshold ==> x >= high)
  }

  lemma {:induction false} CountsOfParts(s: seq<real>, threshold: real, low: real, high: real)
    requires forall x :: x in s && x < threshold ==> x <= low
    requires forall x :: x in s && x >= threshold ==> x >= high
    requires low < threshold <= high
    ensures AtMost(s, low) == Under(s, high) == Under(s, threshold)
    ensures Under(s, low) <= Under(s, threshold) <= AtMost(s, high)
    ensures low in s ==> Under(s, low) < Under(s, threshold)
    ensures high in s ==> Under(s, threshold) < AtMost(s, high)
  {
    if s != [] {
      assert s == [s[0]] + s[1..] && s[0] in s;
      assert forall x :: x in s[1..] ==> x in s;
      CountsOfParts(s[1..], threshold, low, high);
    }
  }

  lemma {:induction false} LargestUnder(s: seq<real>, threshold: real) returns (low: real)
    requires Under(s, threshold) > 0
    ensures low in s && low < threshold && forall x :: x in s && x < threshold ==> x <= low
  {
    assert s == [s[0]] + s[1..];
    if Under(s[1..], threshold) > 0 {
      low := LargestUnder(s[1..], threshold);
      if low < s[0] < threshold {
        low := s[0];
      }
    } else {
      low := s[0];
      NoneIsUnder(s[1..], threshold);
    }
  }

  lemma {:induction false} NoneIsUnder(s: seq<real>, threshold: real)
    requires Under(s, threshold) == 0
    ensures forall x :: x in s ==> x >= threshold
  {
    if s != [] {
      assert s == [s[0]] + s[1..];
      NoneIsUnder(s[1..], threshold);
    }
  }

  lemma {:induction false} SmallestFrom(s: seq<real>, threshold: real) returns (high: real)
    requires Under(s, threshold) < |s|
    ensures high in s && high >= threshold && forall x :: x in s && x >= threshold ==> x >= high
  {
    assert s == [s[0]] + s[1..];
    if Under(s[1..], threshold) < |s| - 1 {
      high := SmallestFrom(s[1..], threshold);
      if high > s[0] >= threshold {
        high := s[0];
      }
    } else {
      high := s[0];
      AllAreUnder(s[1..], threshold);
    }
  }

  lemma {:induction false} AllAreUnder(s: seq<real>, threshold: real)
    requires Under(s, threshold) == |s|
    ensures forall x :: x in s ==> x < threshold
  {
    if s != [] {
      assert s == [s[0]] + s[1..];
      AllAreUnder(s[1..], threshold);
    }
  }

  /** Exactly half of the values are under a threshold: the median is half way between the
      largest of those and the smallest of the others. */
  lemma MedianOfEqualParts(s: seq<real>, threshold: real, low: real, high: real)
    requires s != [] && 2 * Under(s, threshold) == |s| && Parts(s, threshold, low, high)
    ensures Median(s) == (low + high) / 2.0
  {
    hide Under, AtMost, Median;
    CountsOfParts(s, threshold, low, high);
    MedianIsTheMiddle(s, low, high);
  }

  lemma TheseAreParts(s: seq<real>, threshold: real, low: real, high: real)
    requires low in s && high in s && low < threshold <= high
    requires forall x :: x in s && x < threshold ==> x <= low
    requires forall x :: x in s && x >= threshold ==> x >= high
    ensures Parts(s, threshold, low, high)
  {
  }

  /** The largest value under the threshold is further from it than the smallest of the
      others. */
  ghost predicate LowIsFurther(s: seq<real>, threshold: real) {
    exists low, high :: Parts(s, threshold, low, high) && threshold - low > high - threshold
  }

  /** The side of the median, whatever the values: more than half of them under the
      threshold, or exactly half and those further from it. */
  lemma MedianIsUnderIff(s: seq<real>, threshold: real)
    requires s != []
    ensures Median(s) < threshold
            <==> 2 * Under(s, threshold) > |s| || (2 * Under(s, threshold) == |s| && LowIsFurther(s, threshold))
  {
    hide Under, AtMost, Median, Parts;
    MedianFollowsTheMajority(s, threshold);
    if 2 * Under(s, threshold) == |s| {
      var low := LargestUnder(s, threshold);
      var high := SmallestFrom(s, threshold);
      TheseAreParts(s, threshold, low, high);
      forall l, h | Parts(s, threshold, l, h)
        ensures Median(s) == (l + h) / 2.0
      {
        MedianOfEqualParts(s, threshold, l, h);
      }
    }
  }

  // ---- the window ------------------------------------------------------------

  /** What remains once the old measures at the front are gone. */
  function Pruned(ms: seq<Measure>, limit: Instant): seq<Measure> {
    if ms != [] && ms[0].at < limit then Pruned(ms[1..], limit) else ms
  }

  /** The measures of the whole history that lie in the window. */
  function Recent(history: seq<Measure>, limit: Instant): seq<Measure> {
    if history == [] then []
    else if history[0].at >= limit then [history[0]] + Recent(history[1..], limit)
    else Recent(history[1..], limit)
  }

  /** Pruning now and again later, with measures arriving in between, is pruning
      the whole history once, as long as the limit does not go back. */
  lemma {:induction false} PruningIsForgetful(history: seq<Measure>, more: seq<Measure>, limit: Instant, later: Instant)
    requires limit <= later
    ensures Pruned(Pruned(history, limit) + more, later) == Pruned(history + more, later)
  {
    if history != [] && history[0].at < limit {
      PruningIsForgetful(history[1..], more, limit, later);
      assert history + more == [history[0]] + (history[1..] + more);
    }
  }

  /** Some measure is older than the limit. */
  ghost predicate HasOld(ms: seq<Measure>, limit: Instant) {
    exists i :: 0 <= i < |ms| && ms[i].at < limit
  }

  /** A measure older than the limit arrived after one that is not. */
  ghost predicate OutOfOrder(history: seq<Measure>, limit: Instant) {
    exists i, j :: 0 <= i < j < |history| && history[j].at < limit <= history[i].at
  }

  lemma HasOldFront(ms: seq<Measure>, limit: Instant)
    requires ms != []
    ensures HasOld(ms, limit) <==> ms[0].at < limit || HasOld(ms[1..], limit)
  {
    if i :| 0 <= i < |ms| && ms[i].at < limit {
      assert i > 0 ==> ms[1..][i - 1].at < limit;
    }
    if i :| 0 <= i < |ms[1..]| && ms[1..][i].at < limit {
      assert ms[i + 1].at < limit;
    }
  }

  lemma OutOfOrderFront(ms: seq<Measure>, limit: Instant)
    requires ms != []
    ensures ms[0].at < limit ==> (OutOfOrder(ms, limit) <==> OutOfOrder(ms[1..], limit))
    ensures ms[0].at >= limit ==> (OutOfOrder(ms, limit) <==> HasOld(ms, limit))
  {
    if i, j :| 0 <= i < j < |ms| && ms[j].at < limit <= ms[i].at {
      assert i > 0 ==> ms[1..][j - 1].at < limit <= ms[1..][i - 1].at;
    }
    if i, j :| 0 <= i < j < |ms[1..]| && ms[1..][j].at < limit <= ms[1..][i].at {
      assert ms[j + 1].at < limit <= ms[i + 1].at;
    }
    if j :| 0 <= j < |ms| && ms[j].at < limit {
      assert ms[0].at >= limit ==> ms[j].at < limit <= ms[0].at;
    }
  }

  lemma {:induction false} AllRecent(ms: seq<Measure>, limit: Instant)
    ensures |Recent(ms, limit)| <= |ms|
    ensures Recent(ms, limit) == ms <==> !HasOld(ms, limit)
  {
    if ms != [] {
      AllRecent(ms[1..], limit);
      HasOldFront(ms, limit);
      assert ms == [ms[0]] + ms[1..];
    }
  }

  /** The pruned deque is the window of the whole history exactly when no measure
      older than the window arrived after one inside it: in particular whenever
      the measures of the room arrive in time order. */
  lemma {:induction false} WindowIff(history: seq<Measure>, limit: Instant)
    ensures Pruned(history, limit) == Recent(history, limit) <==> !OutOfOrder(history, limit)
  {
    if history != [] {
      OutOfOrderFront(history, limit);
      AllRecent(history, limit);
      if history[0].at < limit {
        WindowIff(history[1..], limit);
      }
    }
  }

  // ---- the two rules ---------------------------------------------------------

  datatype Cause = Cadence | Freeze(worst: real)

  datatype Drop = Drop(room: Room, median: real, measures: nat, pages: nat, game: string, cause: Cause)

  datatype Settings = Settings(threshold: real, window: int, pause: int, minimum: nat, freezeThreshold: real)

  function Rates(ms: seq<Measure>): (r: seq<real>)
    ensures |r| == |ms| && forall i :: 0 <= i < |ms| ==> r[i] == ms[i].rate
  {
    seq(|ms|, i requires 0 <= i < |ms| => ms[i].rate)
  }

  function Worst(ms: seq<Measure>): (w: real)
    requires ms != []
    ensures forall i :: 0 <= i < |ms| ==> ms[i].freeze <= w
    ensures exists i :: 0 <= i < |ms| && ms[i].freeze == w
  {
    if |ms| == 1 then ms[0].freeze
    else
      var w := Worst(ms[1..]);
      if ms[0].freeze > w then ms[0].freeze else w
  }

  /** Which rule speaks for a window of measures, the cadence first. */
  function Verdict(s: Settings, ms: seq<Measure>): Option<Cause> {
    if ms == [] then None
    else if |ms| >= s.minimum && Median(Rates(ms)) < s.threshold then Some(Cadence)
    else if Worst(ms) >= s.freezeThreshold then Some(Freeze(Worst(ms)))
    else None
  }

  function Report(room: Room, ms: seq<Measure>, cause: Cause): Drop
    requires ms != []
  {
    Drop(room, Median(Rates(ms)), |ms|, |set m | m in ms :: m.visit|, ms[|ms| - 1].game, cause)
  }

  /** The cadence rule speaks exactly when there are enough measures and either strictly
      more than half of the window is under the threshold, or exactly half and further from
      it than the others. The freeze rule speaks exactly when the other is silent and some
      measure reaches its threshold, and tells the worst. */
  lemma VerdictFollowsTheWindow(s: Settings, ms: seq<Measure>)
    requires ms != []
    ensures Verdict(s, ms) == Some(Cadence)
            <==> && |ms| >= s.minimum
                 && (|| 2 * Under(Rates(ms), s.threshold) > |ms|
                     || (2 * Under(Rates(ms), s.threshold) == |ms| && LowIsFurther(Rates(ms), s.threshold)))
    ensures Verdict(s, ms) != Some(Cadence) ==>
              (Verdict(s, ms).Some? <==> exists i :: 0 <= i < |ms| && ms[i].freeze >= s.freezeThreshold)
    ensures forall w :: Verdict(s, ms) == Some(Freeze(w)) ==>
              && (forall i :: 0 <= i < |ms| ==> ms[i].freeze <= w)
              && (exists i :: 0 <= i < |ms| && ms[i].freeze == w)
  {
    hide LowIsFurther;
    MedianIsUnderIff(Rates(ms), s.threshold);
  }

  /** What an alert says of the window it is given for: the value half way between its middle
      ranks, how many measures, how many pages, and the game of the last. */
  lemma WhatAReportSays(room: Room, ms: seq<Measure>, cause: Cause, low: real, high: real, pages: set<string>)
    requires ms != [] && Ranks(Rates(ms), (|ms| - 1) / 2, low) && Ranks(Rates(ms), |ms| / 2, high)
    requires forall v :: v in pages <==> exists i :: 0 <= i < |ms| && ms[i].visit == v
    ensures var d := Report(room, ms, cause);
            && d.room == room && d.cause == cause && d.median == (low + high) / 2.0
            && d.measures == |ms| && d.pages == |pages| && d.game == ms[|ms| - 1].game
  {
    hide Median, Ranks;
    MedianIsTheMiddle(Rates(ms), low, high);
    var visits := set m | m in ms :: m.visit;
    assert pages == visits;
  }

  // ---- the trigger -----------------------------------------------------------

  /** The rooms in the order they were first heard of, their deques, and the
      instant of each room's last alert. */
  datatype State = State(rooms: seq<Room>, measures: map<Room, seq<Measure>>, last: map<Room, Instant>)

  ghost predicate WellFormed(st: State) {
    && (forall r :: r in st.rooms <==> r in st.measures)
    && (forall i, j :: 0 <= i < j < |st.rooms| ==> st.rooms[i] != st.rooms[j])
  }

  ghost predicate Known(st: State, rooms: seq<Room>) {
    forall i :: 0 <= i < |rooms| ==> rooms[i] in st.measures
  }

  const FRESH := State([], map[], map[])

  function Heard(st: State, line: Line): State {
    match Useful(line)
    case None => st
    case Some((room, m)) =>
      if room in st.measures then st.(measures := st.measures[room := st.measures[room] + [m]])
      else st.(rooms := st.rooms + [room], measures := st.measures[room := [m]])
  }

  /** The deque of a room, empty for a room never heard of. */
  function DequeOf(st: State, room: Room): seq<Measure> {
    if room in st.measures then st.measures[room] else []
  }

  function LastOf(st: State, room: Room): Option<Instant> {
    if room in st.last then Some(st.last[room]) else None
  }

  predicate Quiet(s: Settings, last: Option<Instant>, now: Instant) {
    last.Some? && now - last.value < s.pause
  }

  /** The alert the two rules and the pause give for the measures of one window. */
  function Judged(s: Settings, ms: seq<Measure>, last: Option<Instant>, room: Room, now: Instant): Option<Drop> {
    match Verdict(s, ms)
    case None => None
    case Some(cause) => if Quiet(s, last, now) then None else Some(Report(room, ms, cause))
  }

  /** The alert one room raises at one evaluation. */
  function Alert(s: Settings, st: State, room: Room, now: Instant): Option<Drop> {
    Judged(s, Pruned(DequeOf(st, room), now - s.window), LastOf(st, room), room, now)
  }

  /** The deques, the last alerts and the alerts given, room after room. */
  datatype Evaluation = Evaluation(state: State, drops: seq<Drop>)

  function OneRoom(s: Settings, e: Evaluation, room: Room, now: Instant): Evaluation
    requires room in e.state.measures
  {
    var ms := Pruned(e.state.measures[room], now - s.window);
    var alert := Alert(s, e.state, room, now);
    var st := e.state.(measures := e.state.measures[room := ms]);
    if alert.None? then Evaluation(st, e.drops)
    else Evaluation(st.(last := st.last[room := now]), e.drops + [alert.value])
  }

  function Evaluated(s: Settings, st: State, rooms: seq<Room>, now: Instant): (e: Evaluation)
    requires Known(st, rooms)
    ensures e.state.measures.Keys == st.measures.Keys && e.state.rooms == st.rooms
  {
    if rooms == [] then Evaluation(st, [])
    else OneRoom(s, Evaluated(s, st, rooms[..|rooms| - 1], now), rooms[|rooms| - 1], now)
  }

  lemma EvaluatedStep(s: Settings, st: State, rooms: seq<Room>, k: nat, now: Instant)
    requires Known(st, rooms) && k <= |rooms|
    ensures k == 0 ==> Evaluated(s, st, rooms[..k], now) == Evaluation(st, [])
    ensures k < |rooms| ==>
              Evaluated(s, st, rooms[..k + 1], now) == OneRoom(s, Evaluated(s, st, rooms[..k], now), rooms[k], now)
  {
    if k < |rooms| {
      assert rooms[..k + 1][..k] == rooms[..k];
    }
  }

  lemma RoomJudged(s: Settings, before: Evaluation, room: Room, now: Instant, after: Evaluation, alert: Option<Drop>)
    requires room in before.state.measures && alert == Alert(s, before.state, room, now)
    requires after.state.rooms == before.state.rooms
    requires after.state.measures
          == before.state.measures[room := Pruned(before.state.measures[room], now - s.window)]
    requires after.state.last == if alert.Some? then before.state.last[room := now] else before.state.last
    requires after.drops == if alert.Some? then before.drops + [alert.value] else before.drops
    ensures after == OneRoom(s, before, room, now)
  {
  }

  lemma AllRoomsKnown(st: State)
    requires WellFormed(st)
    ensures Known(st, st.rooms)
  {
  }

  lemma HeardKeepsWellFormed(st: State, line: Line)
    requires WellFormed(st)
    ensures WellFormed(Heard(st, line))
  {
  }

  lemma StillWellFormed(before: State, after: State)
    requires WellFormed(before) && after.rooms == before.rooms && after.measures.Keys == before.measures.Keys
    ensures WellFormed(after)
  {
    assert forall r :: r in after.measures <==> r in before.measures.Keys;
  }

  class Declencheur {
    const settings: Settings
    var rooms: seq<Room>
    var measures: map<Room, seq<Measure>>
    var last: map<Room, Instant>

    ghost function Value(): State
      reads this
    {
      State(rooms, measures, last)
    }

    constructor (settings: Settings)
      ensures this.settings == settings && Value() == FRESH
    {
      this.settings := settings;
      rooms, measures, last := [], map[], map[];
    }

    /** Keeps a line of the room's log when it is a useful measure. */
    method Lire(line: Line)
      requires WellFormed(Value())
      modifies this
      ensures WellFormed(Value())
      ensures Value() == Heard(old(Value()), line)
    {
      hide WellFormed;
      HeardKeepsWellFormed(Value(), line);
      if line.what != "mesures" || line.bench {
        return;
      }
      if line.seen.None? || line.place.None? || line.place.value.game == "" {
        return;
      }
      var rate := Number(line.seen.value.gameRate);
      if rate.None? || rate.value <= 0.0 || !line.when.Aware? {
        return;
      }
      var room: Room := if line.place.value.number.Int? then Some(line.place.value.number.i) else None;
      var arrivals := line.seen.value.arrivals;
      var worst := if arrivals.Some? && |arrivals.value| == 3 then Number(arrivals.value[2]) else None;
      var m := Measure(line.when.at, line.visit, rate.value, line.place.value.game,
                       if worst.Some? then worst.value else 0.0);
      if room !in measures {
        rooms := rooms + [room];
        measures := measures[room := []];
        assert [] + [m] == [m];
      }
      measures := measures[room := measures[room] + [m]];
      assert Value().measures == Heard(old(Value()), line).measures;
    }

    /** The rooms that go badly now and are not in their pause. */
    method Evaluer(now: Instant) returns (drops: seq<Drop>)
      requires WellFormed(Value())
      modifies this
      ensures WellFormed(Value())
      ensures Evaluation(Value(), drops) == Evaluated(settings, old(Value()), old(rooms), now)
    {
      hide Alert, WellFormed, OneRoom, Pruned, Evaluated;
      AllRoomsKnown(Value());
      drops := [];
      var k := 0;
      assert rooms[..0] == [];
      EvaluatedStep(settings, Value(), rooms, 0, now);
      while k < |rooms|
        invariant 0 <= k <= |rooms| && rooms == old(rooms) && measures.Keys == old(measures).Keys
        invariant Evaluation(Value(), drops) == Evaluated(settings, old(Value()), rooms[..k], now)
      {
        EvaluatedStep(settings, old(Value()), rooms, k, now);
        ghost var before := Evaluation(Value(), drops);
        var alert := Juger(rooms[k], now);
        if alert.Some? {
          drops := drops + [alert.value];
        }
        RoomJudged(settings, before, rooms[k], now, Evaluation(Value(), drops), alert);
        k := k + 1;
      }
      assert rooms[..k] == rooms;
      StillWellFormed(old(Value()), Value());
    }

    /** One room of an evaluation: its deque is pruned, then judged. */
    method Juger(room: Room, now: Instant) returns (alert: Option<Drop>)
      requires room in measures
      modifies `measures, `last
      ensures alert == Alert(settings, old(Value()), room, now)
      ensures measures == old(measures)[room := Pruned(old(measures)[room], now - settings.window)]
      ensures last == if alert.Some? then old(last)[room := now] else old(last)
    {
      var ms := Expire(measures[room], now - settings.window);
      measures := measures[room := ms];
      var verdict := Verdict(settings, ms);
      if verdict.None? {
        return None;
      }
      if room in last && now - last[room] < settings.pause {
        return None;
      }
      last := last[room := now];
      return Some(Report(room, ms, verdict.value));
    }

    /** Pops the measures before the limit off the front of a deque. */
    static method Expire(ms: seq<Measure>, limit: Instant) returns (r: seq<Measure>)
      ensures r == Pruned(ms, limit)
    {
      r := ms;
      while r != [] && r[0].at < limit
        invariant Pruned(r, limit) == Pruned(ms, limit)
      {
        r := r[1..];
      }
    }
  }

  // ---- what an evaluation says, room by room -----------------------------------

  ghost predicate Distinct(rooms: seq<Room>) {
    forall i, j :: 0 <= i < j < |rooms| ==> rooms[i] != rooms[j]
  }

  /** What one evaluation leaves of one room. */
  ghost predicate RoomAfter(s: Settings, st: State, after: State, room: Room, now: Instant) {
    && DequeOf(after, room) == Pruned(DequeOf(st, room), now - s.window)
    && LastOf(after, room) == if Alert(s, st, room, now).Some? then Some(now) else LastOf(st, room)
  }

  ghost predicate RoomUntouched(st: State, after: State, room: Room) {
    DequeOf(after, room) == DequeOf(st, room) && LastOf(after, room) == LastOf(st, room)
  }

  lemma OneRoomByRoom(s: Settings, e: Evaluation, room: Room, now: Instant)
    requires room in e.state.measures
    ensures RoomAfter(s, e.state, OneRoom(s, e, room, now).state, room, now)
    ensures forall r :: r != room ==> RoomUntouched(e.state, OneRoom(s, e, room, now).state, r)
    ensures OneRoom(s, e, room, now).drops
         == e.drops + if Alert(s, e.state, room, now).Some? then [Alert(s, e.state, room, now).value] else []
  {
  }

  /** The alerts of some rooms, each judged from the state before the evaluation. */
  function Alerts(s: Settings, st: State, rooms: seq<Room>, now: Instant): seq<Drop> {
    if rooms == [] then []
    else
      var alert := Alert(s, st, rooms[|rooms| - 1], now);
      Alerts(s, st, rooms[..|rooms| - 1], now) + if alert.Some? then [alert.value] else []
  }

  /** The rooms do not disturb one another: every room is pruned and judged as if
      it were alone, and the alerts come in the order of the rooms. */
  lemma {:induction false} EvaluationByRoom(s: Settings, st: State, rooms: seq<Room>, now: Instant)
    requires Distinct(rooms) && Known(st, rooms)
    ensures forall r :: r in rooms ==> RoomAfter(s, st, Evaluated(s, st, rooms, now).state, r, now)
    ensures forall r :: r !in rooms ==> RoomUntouched(st, Evaluated(s, st, rooms, now).state, r)
    ensures Evaluated(s, st, rooms, now).drops == Alerts(s, st, rooms, now)
  {
    hide Judged, Pruned, OneRoom, DequeOf, LastOf;
    if rooms != [] {
      var earlier, room := rooms[..|rooms| - 1], rooms[|rooms| - 1];
      EvaluationByRoom(s, st, earlier, now);
      var before, after := Evaluated(s, st, earlier, now), Evaluated(s, st, rooms, now);
      OneRoomByRoom(s, before, room, now);
      assert room !in earlier;
      assert rooms == earlier + [room];
      forall r
        ensures r in rooms ==> RoomAfter(s, st, after.state, r, now)
        ensures r !in rooms ==> RoomUntouched(st, after.state, r)
      {
        assert r in rooms <==> r in earlier || r == room;
        if r != room {
          assert RoomUntouched(before.state, after.state, r);
        }
      }
    }
  }

  /** The same for every room at once, known or not. */
  lemma EveryRoomAfter(s: Settings, st: State, now: Instant, room: Room)
    requires WellFormed(st) && Known(st, st.rooms)
    ensures RoomAfter(s, st, Evaluated(s, st, st.rooms, now).state, room, now)
  {
    hide Judged, Evaluated;
    EvaluationByRoom(s, st, st.rooms, now);
    if room !in st.rooms {
      NoAlertUnheard(s, st, room, now);
      assert DequeOf(st, room) == [] && Pruned([], now - s.window) == [];
    }
  }

  lemma {:induction false} AlertsAreOfTheRooms(s: Settings, st: State, rooms: seq<Room>, now: Instant, d: Drop)
    ensures d in Alerts(s, st, rooms, now) <==> exists r :: r in rooms && Alert(s, st, r, now) == Some(d)
  {
    hide Alert;
    if rooms != [] {
      var earlier, room := rooms[..|rooms| - 1], rooms[|rooms| - 1];
      AlertsAreOfTheRooms(s, st, earlier, now, d);
      assert forall r :: r in rooms <==> r in earlier || r == room;
    }
  }

  // ---- whole runs ------------------------------------------------------------

  datatype Op = Hear(line: Line) | Evaluate(now: Instant)

  function After(s: Settings, ops: seq<Op>): (st: State)
    ensures WellFormed(st) && Known(st, st.rooms)
  {
    if ops == [] then FRESH
    else
      var before := After(s, ops[..|ops| - 1]);
      match ops[|ops| - 1]
      case Hear(line) =>
        HeardKeepsWellFormed(before, line);
        AllRoomsKnown(Heard(before, line));
        Heard(before, line)
      case Evaluate(now) =>
        var e := Evaluated(s, before, before.rooms, now);
        StillWellFormed(before, e.state);
        AllRoomsKnown(e.state);
        e.state
  }

  /** Every measure ever heard for a room, nothing forgotten. */
  function History(ops: seq<Op>, room: Room): seq<Measure> {
    if ops == [] then []
    else History(ops[..|ops| - 1], room) + Heards(ops[|ops| - 1], room)
  }

  /** The measure one step brings to a room. */
  function Heards(op: Op, room: Room): seq<Measure> {
    if op.Hear? && Useful(op.line).Some? && Useful(op.line).value.0 == room then [Useful(op.line).value.1] else []
  }

  function LastEvaluation(ops: seq<Op>): Option<Instant> {
    if ops == [] then None
    else if ops[|ops| - 1].Evaluate? then Some(ops[|ops| - 1].now)
    else LastEvaluation(ops[..|ops| - 1])
  }

  /** No evaluation so far came after this instant. */
  ghost predicate NotBefore(ops: seq<Op>, now: Instant) {
    LastEvaluation(ops).Some? ==> LastEvaluation(ops).value <= now
  }

  /** The clock of the evaluations does not go back. */
  ghost predicate ForwardClock(ops: seq<Op>) {
    ops != [] ==>
      && ForwardClock(ops[..|ops| - 1])
      && (ops[|ops| - 1].Evaluate? ==> NotBefore(ops[..|ops| - 1], ops[|ops| - 1].now))
  }

  /** The instants at which a room was given an alert. */
  function AlertTimes(s: Settings, ops: seq<Op>, room: Room): seq<Instant> {
    if ops == [] then []
    else
      var earlier, last := ops[..|ops| - 1], ops[|ops| - 1];
      AlertTimes(s, earlier, room)
      + if last.Evaluate? && Alert(s, After(s, earlier), room, last.now).Some? then [last.now] else []
  }

  lemma HeardByRoom(st: State, line: Line, room: Room)
    ensures DequeOf(Heard(st, line), room) == DequeOf(st, room) + Heards(Hear(line), room)
    ensures LastOf(Heard(st, line), room) == LastOf(st, room)
  {
    hide Useful;
  }

  /** The deque of a room is its whole history pruned: pruning either at any later
      instant gives the same window. */
  lemma {:induction false} DequeIsTheHistoryPruned(s: Settings, ops: seq<Op>, room: Room, later: Instant)
    requires ForwardClock(ops) && NotBefore(ops, later)
    ensures Pruned(DequeOf(After(s, ops), room), later - s.window) == Pruned(History(ops, room), later - s.window)
  {
    hide Alert, Heard, Evaluated, DequeOf, Heards, Pruned, WellFormed, Known;
    if ops == [] {
      NothingHeard(room);
    } else {
      var earlier, last := ops[..|ops| - 1], ops[|ops| - 1];
      var before, history, limit := After(s, earlier), History(earlier, room), later - s.window;
      match last
      case Hear(line) =>
        DequeIsTheHistoryPruned(s, earlier, room, later);
        HeardByRoom(before, line, room);
        PruningIsForgetful(history, Heards(last, room), limit, limit);
        PruningIsForgetful(DequeOf(before, room), Heards(last, room), limit, limit);
      case Evaluate(now) =>
        DequeIsTheHistoryPruned(s, earlier, room, now);
        EveryRoomAfter(s, before, now, room);
        NothingFromEvaluating(now, room);
        PruneTwice(history, now - s.window, limit);
        assert history + [] == history;
    }
  }

  lemma NothingHeard(room: Room)
    ensures DequeOf(FRESH, room) == [] && LastOf(FRESH, room) == None
  {
  }

  lemma NothingFromEvaluating(now: Instant, room: Room)
    ensures Heards(Evaluate(now), room) == []
  {
  }

  lemma PruneTwice(history: seq<Measure>, limit: Instant, later: Instant)
    requires limit <= later
    ensures Pruned(Pruned(history, limit), later) == Pruned(history, later)
  {
    PruningIsForgetful(history, [], limit, later);
    assert Pruned(history, limit) + [] == Pruned(history, limit);
    assert history + [] == history;
  }

  function LastTime(times: seq<Instant>): Option<Instant> {
    if times == [] then None else Some(times[|times| - 1])
  }

  /** The pause is counted from the room's last alert. */
  lemma {:induction false} LastIsTheLastAlert(s: Settings, ops: seq<Op>, room: Room)
    ensures LastOf(After(s, ops), room) == LastTime(AlertTimes(s, ops, room))
  {
    hide Alert, Heard, Evaluated, LastOf, WellFormed, Known;
    if ops == [] {
      NothingHeard(room);
    } else {
      var earlier, last := ops[..|ops| - 1], ops[|ops| - 1];
      LastIsTheLastAlert(s, earlier, room);
      match last
      case Hear(line) =>
        HeardByRoom(After(s, earlier), line, room);
      case Evaluate(now) =>
        EveryRoomAfter(s, After(s, earlier), now, room);
    }
  }

  /** Any two alerts of one room are at least the pause apart, whatever the clock
      does between them. */
  lemma {:induction false} AlertsAreAPauseApart(s: Settings, ops: seq<Op>, room: Room, i: nat, j: nat)
    requires s.pause >= 0 && i < j < |AlertTimes(s, ops, room)|
    ensures AlertTimes(s, ops, room)[j] - AlertTimes(s, ops, room)[i] >= s.pause
  {
    hide After, Pruned, Verdict, Report;
    var earlier, last := ops[..|ops| - 1], ops[|ops| - 1];
    var times := AlertTimes(s, earlier, room);
    if j < |times| {
      AlertsAreAPauseApart(s, earlier, room, i, j);
    } else {
      LastIsTheLastAlert(s, earlier, room);
      assert !Quiet(s, LastOf(After(s, earlier), room), last.now);
      if i < |times| - 1 {
        AlertsAreAPauseApart(s, earlier, room, i, |times| - 1);
      }
    }
  }

  /** A room is given an alert if and only if its window has one to give and no alert was
      given to it within the pause. */
  lemma AlertIff(s: Settings, ops: seq<Op>, room: Room, now: Instant)
    ensures var window, times := Pruned(DequeOf(After(s, ops), room), now - s.window), AlertTimes(s, ops, room);
            Alert(s, After(s, ops), room, now).Some?
            <==> Verdict(s, window).Some? && (times == [] || now - times[|times| - 1] >= s.pause)
  {
    hide After, Pruned, Verdict, Report, DequeOf;
    LastIsTheLastAlert(s, ops, room);
  }

  /** What the rules say of a room from everything ever heard of it and every
      alert ever given for it. */
  function Due(s: Settings, ops: seq<Op>, room: Room, now: Instant): Option<Drop> {
    Judged(s, Recent(History(ops, room), now - s.window), LastTime(AlertTimes(s, ops, room)), room, now)
  }

  lemma AlertIsDue(s: Settings, ops: seq<Op>, room: Room, now: Instant)
    requires ForwardClock(ops) && NotBefore(ops, now)
    requires !OutOfOrder(History(ops, room), now - s.window)
    ensures Alert(s, After(s, ops), room, now) == Due(s, ops, room, now)
  {
    hide After, Judged, DequeOf, LastOf;
    DequeIsTheHistoryPruned(s, ops, room, now);
    LastIsTheLastAlert(s, ops, room);
    WindowIff(History(ops, room), now - s.window);
  }

  /** The trigger, which forgets, agrees with the rules, which do not: with a
      clock that does not go back and measures in order, an evaluation gives
      exactly the alerts that are due, and misses none. */
  lemma TriggerAgreesWithTheRule(s: Settings, ops: seq<Op>, now: Instant, d: Drop)
    requires ForwardClock(ops) && NotBefore(ops, now)
    requires forall room :: !OutOfOrder(History(ops, room), now - s.window)
    ensures d in Evaluated(s, After(s, ops), After(s, ops).rooms, now).drops
            <==> exists room :: Due(s, ops, room, now) == Some(d)
  {
    hide After, Judged, Pruned, Evaluated;
    var st := After(s, ops);
    EvaluationByRoom(s, st, st.rooms, now);
    AlertsAreOfTheRooms(s, st, st.rooms, now, d);
    forall room
      ensures Alert(s, st, room, now) == Due(s, ops, room, now)
      ensures room !in st.rooms ==> Alert(s, st, room, now).None?
    {
      AlertIsDue(s, ops, room, now);
      if room !in st.rooms {
        NoAlertUnheard(s, st, room, now);
      }
    }
  }

  lemma NoAlertUnheard(s: Settings, st: State, room: Room, now: Instant)
    requires WellFormed(st) && room !in st.rooms
    ensures Alert(s, st, room, now).None?
  {
    assert Pruned([], now - s.window) == [];
  }
}
