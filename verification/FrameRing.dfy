/** The ring of picture slots an emulator lends to a receiver over two message
    channels (spikes/m2-vaapi-export/receive_frame.c). */
module FrameRing {
  import opened Common

  /** The value a slot variable has before any slot is held: UINT32_MAX. */
  const NONE: nat := 0xFFFF_FFFF

  /** What the receiver does with a slot: reads its announcement, gives it back, or
      fails to. */
  datatype Event = Read(slot: nat) | Gave(slot: nat) | Lost(slot: nat)

  // ---- whose slot it is ------------------------------------------------------

  function Then(owned: multiset<nat>, e: Event): multiset<nat> {
    if e.Read? then owned + multiset{e.slot}
    else if e.Gave? then owned - multiset{e.slot}
    else owned
  }

  /** The slots lent to the receiver and not given back. */
  function Owned(log: seq<Event>): multiset<nat> {
    if log == [] then multiset{} else Then(Owned(log[..|log| - 1]), log[|log| - 1])
  }

  /** Only slots it was lent are given back. */
  ghost predicate Proper(log: seq<Event>) {
    log == [] ||
    var before, last := log[..|log| - 1], log[|log| - 1];
    Proper(before) && (last.Read? || last.slot in Owned(before))
  }

  /** No slot is announced again while it is lent. */
  ghost predicate Fair(log: seq<Event>) {
    log == [] ||
    var before, last := log[..|log| - 1], log[|log| - 1];
    Fair(before) && (last.Read? ==> last.slot !in Owned(before))
  }

  lemma More(log: seq<Event>, e: Event)
    ensures Owned(log + [e]) == Then(Owned(log), e)
    ensures Proper(log + [e]) <==> Proper(log) && (e.Read? || e.slot in Owned(log))
    ensures Fair(log + [e]) <==> Fair(log) && (e.Read? ==> e.slot !in Owned(log))
  {
    assert (log + [e])[..|log|] == log;
  }

  function Reads(log: seq<Event>): seq<nat> {
    if log == [] then []
    else Reads(log[..|log| - 1]) + (if log[|log| - 1].Read? then [log[|log| - 1].slot] else [])
  }

  function Gives(log: seq<Event>): seq<nat> {
    if log == [] then []
    else Gives(log[..|log| - 1]) + (if log[|log| - 1].Gave? then [log[|log| - 1].slot] else [])
  }

  lemma MoreReads(log: seq<Event>, e: Event)
    ensures Reads(log + [e]) == Reads(log) + (if e.Read? then [e.slot] else [])
    ensures Gives(log + [e]) == Gives(log) + (if e.Gave? then [e.slot] else [])
  {
    assert (log + [e])[..|log|] == log;
  }

  /** Every announcement read is given back or still owed. */
  lemma {:induction false} NothingVanishes(log: seq<Event>)
    requires Proper(log)
    ensures multiset(Reads(log)) == multiset(Gives(log)) + Owned(log)
  {
    if log != [] {
      NothingVanishes(log[..|log| - 1]);
    }
  }

  // ---- the ring --------------------------------------------------------------

  /** Both ends and both channels. The producer announces only slots that are free,
      and frees a slot only when it reads its release. */
  datatype Ring = Ring(free: multiset<nat>, sent: seq<nat>, lent: multiset<nat>, back: seq<nat>)

  datatype Step = Announce(slot: nat) | Collect | Receiver(event: Event)

  function Start(slots: set<nat>): Ring {
    Ring(multiset(slots), [], multiset{}, [])
  }

  predicate Enabled(r: Ring, step: Step) {
    match step
    case Announce(s) => s in r.free
    case Collect => r.back != []
    case Receiver(e) => if e.Read? then r.sent != [] && r.sent[0] == e.slot else e.slot in r.lent
  }

  function Next(r: Ring, step: Step): Ring
    requires Enabled(r, step)
  {
    match step
    case Announce(s) => r.(free := r.free - multiset{s}, sent := r.sent + [s])
    case Collect => r.(free := r.free + multiset{r.back[0]}, back := r.back[1..])
    case Receiver(e) =>
      r.(lent := Then(r.lent, e),
         sent := if e.Read? then r.sent[1..] else r.sent,
         back := if e.Gave? then r.back + [e.slot] else r.back)
  }

  /** The ring after a run, if every step of it could be taken. */
  function After(slots: set<nat>, steps: seq<Step>): Option<Ring> {
    if steps == [] then Some(Start(slots))
    else
      var before := After(slots, steps[..|steps| - 1]);
      if before.Some? && Enabled(before.value, steps[|steps| - 1])
      then Some(Next(before.value, steps[|steps| - 1])) else None
  }

  function Places(r: Ring): multiset<nat> {
    r.free + multiset(r.sent) + r.lent + multiset(r.back)
  }

  /** Over every run, every slot is in exactly one of four places: free, announced,
      lent, or on its way back. */
  lemma {:induction false} EverySlotIsInOnePlace(slots: set<nat>, steps: seq<Step>)
    requires After(slots, steps).Some?
    ensures Places(After(slots, steps).value) == multiset(slots)
  {
    if steps == [] {
      assert multiset(Start(slots).sent) == multiset{} && multiset(Start(slots).back) == multiset{};
    } else {
      EverySlotIsInOnePlace(slots, steps[..|steps| - 1]);
      StepKeepsPlaces(After(slots, steps[..|steps| - 1]).value, steps[|steps| - 1]);
    }
  }

  lemma HeadOff(s: seq<nat>)
    requires s != []
    ensures multiset(s) == multiset{s[0]} + multiset(s[1..])
  {
    assert s == [s[0]] + s[1..];
  }

  lemma Moved(a: multiset<nat>, b: multiset<nat>, c: multiset<nat>, d: multiset<nat>, s: nat)
    requires s in a
    ensures a - multiset{s} + b + multiset{s} == a + b
    ensures a - multiset{s} + (b + multiset{s}) + c + d == a + b + c + d
    ensures c + d + (a - multiset{s}) + (b + multiset{s}) == c + d + a + b
    ensures (b + multiset{s}) + c + d + (a - multiset{s}) == b + c + d + a
    ensures c + (a - multiset{s}) + (b + multiset{s}) + d == c + a + b + d
  {
  }

  lemma StepKeepsPlaces(r: Ring, step: Step)
    requires Enabled(r, step)
    ensures Places(Next(r, step)) == Places(r)
  {
    var sent, back := multiset(r.sent), multiset(r.back);
    match step
    case Announce(s) =>
      Moved(r.free, sent, r.lent, back, s);
    case Collect =>
      HeadOff(r.back);
      assert multiset(r.back[1..]) == back - multiset{r.back[0]};
      Moved(back, r.free, sent, r.lent, r.back[0]);
    case Receiver(e) =>
      if e.Read? {
        HeadOff(r.sent);
        assert multiset(r.sent[1..]) == sent - multiset{e.slot};
        Moved(sent, r.lent, r.free, back, e.slot);
      } else if e.Gave? {
        Moved(r.lent, back, r.free, sent, e.slot);
      }
  }

  /** The receiver's side of a run. */
  function Side(steps: seq<Step>): seq<Event> {
    if steps == [] then []
    else Side(steps[..|steps| - 1]) + (if steps[|steps| - 1].Receiver? then [steps[|steps| - 1].event] else [])
  }

  /** A producer that announces only free slots never announces one that is lent:
      the receiver's side of every run is fair, and the slots it owes are those the
      ring counts as lent. */
  lemma {:induction false} TheRingIsFair(slots: set<nat>, steps: seq<Step>)
    requires After(slots, steps).Some?
    ensures Fair(Side(steps)) && Proper(Side(steps)) && Owned(Side(steps)) == After(slots, steps).value.lent
  {
    if steps != [] {
      var early, last := steps[..|steps| - 1], steps[|steps| - 1];
      TheRingIsFair(slots, early);
      EverySlotIsInOnePlace(slots, early);
      if last.Receiver? {
        More(Side(early), last.event);
        if last.event.Read? {
          AnnouncedIsNotLent(slots, After(slots, early).value);
        }
      } else {
        assert Side(steps) == Side(early);
      }
    }
  }

  lemma AnnouncedIsNotLent(slots: set<nat>, r: Ring)
    requires Places(r) == multiset(slots) && r.sent != []
    ensures r.sent[0] !in r.lent
  {
    var s := r.sent[0];
    assert multiset(r.sent)[s] >= 1 by {
      assert s in r.sent;
    }
    assert multiset(slots)[s] <= 1;
    assert Places(r)[s] == r.free[s] + multiset(r.sent)[s] + r.lent[s] + multiset(r.back)[s];
  }

  /** What the producer announced, and what it collected, in order. */
  function Announcements(steps: seq<Step>): seq<nat> {
    if steps == [] then []
    else
      var last := steps[|steps| - 1];
      Announcements(steps[..|steps| - 1]) + if last.Announce? then [last.slot] else []
  }

  function Collections(steps: seq<Step>): nat {
    if steps == [] then 0
    else Collections(steps[..|steps| - 1]) + if steps[|steps| - 1].Collect? then 1 else 0
  }

  /** Neither channel loses or reorders: what was announced is what the receiver has read and
      then what it has not yet; of what it gave back the producer has collected the beginning. */
  lemma {:induction false} NeitherChannelLoses(slots: set<nat>, steps: seq<Step>)
    requires After(slots, steps).Some?
    ensures Announcements(steps) == Reads(Side(steps)) + After(slots, steps).value.sent
    ensures Collections(steps) <= |Gives(Side(steps))|
    ensures Gives(Side(steps))[Collections(steps)..] == After(slots, steps).value.back
  {
    hide Enabled, Next, Reads, Gives, Side, Announcements, Collections;
    if steps == [] {
      NothingSent(slots);
    } else {
      var early, last := steps[..|steps| - 1], steps[|steps| - 1];
      NeitherChannelLoses(slots, early);
      var r := After(slots, early).value;
      OneStepMore(steps);
      OnTheWayOut(Announcements(early), Reads(Side(early)), r, last);
      OnTheWayBack(Gives(Side(early)), Collections(early), r, last);
    }
  }

  lemma NothingSent(slots: set<nat>)
    ensures Announcements([]) == Reads(Side([])) + Start(slots).sent
    ensures Collections([]) <= |Gives(Side([]))| && Gives(Side([]))[Collections([])..] == Start(slots).back
  {
  }

  lemma OneStepMore(steps: seq<Step>)
    requires steps != []
    ensures var early, last := steps[..|steps| - 1], steps[|steps| - 1];
            && Announcements(steps) == Announcements(early) + (if last.Announce? then [last.slot] else [])
            && Collections(steps) == (if last.Collect? then Collections(early) + 1 else Collections(early))
            && Reads(Side(steps))
               == Reads(Side(early)) + (if last.Receiver? && last.event.Read? then [last.event.slot] else [])
            && Gives(Side(steps))
               == Gives(Side(early)) + (if last.Receiver? && last.event.Gave? then [last.event.slot] else [])
  {
    hide Reads, Gives;
    var early, last := steps[..|steps| - 1], steps[|steps| - 1];
    if last.Receiver? {
      MoreReads(Side(early), last.event);
    } else {
      assert Side(steps) == Side(early);
    }
  }

  lemma OnTheWayOut(announced: seq<nat>, read: seq<nat>, r: Ring, step: Step)
    requires Enabled(r, step) && announced == read + r.sent
    ensures announced + (if step.Announce? then [step.slot] else [])
            == read + (if step.Receiver? && step.event.Read? then [step.event.slot] else []) + Next(r, step).sent
  {
    if step.Receiver? && step.event.Read? {
      assert r.sent == [step.event.slot] + r.sent[1..];
    }
  }

  lemma OnTheWayBack(given: seq<nat>, collected: nat, r: Ring, step: Step)
    requires Enabled(r, step) && collected <= |given| && given[collected..] == r.back
    ensures var now := given + if step.Receiver? && step.event.Gave? then [step.event.slot] else [];
            var n := if step.Collect? then collected + 1 else collected;
            n <= |now| && now[n..] == Next(r, step).back
  {
  }

  // ---- the receiver ----------------------------------------------------------

  /** What comes from the producer: an announcement (and whether giving the slot back
      would go through), another message, or nothing more. */
  datatype Arrival = Frame(slot: nat, written: bool) | Noise | Nothing

  /** A look at the channel while a slot is held. */
  datatype Poll = Quiet | Got(arrival: Arrival)

  const HOLD_MS := 500
  const STEP_MS := 10

  datatype Verdict = NeverReached | HandedOutAgain | Uniform | Changed | Pass

  /** The slots of the announcements read up to the end of the channel or the first
      slot that cannot be given back. */
  function Announced(arrivals: seq<Arrival>): seq<nat> {
    if arrivals == [] || arrivals[0].Nothing? then []
    else if arrivals[0].Noise? then Announced(arrivals[1..])
    else [arrivals[0].slot] + (if arrivals[0].written then Announced(arrivals[1..]) else [])
  }

  /** The slots of the announcements read while one is held. */
  function HoldAnnounced(polls: seq<Poll>, held: nat): seq<nat> {
    if polls == [] || polls[0] == Got(Nothing) then []
    else if polls[0] == Quiet || polls[0] == Got(Noise) then HoldAnnounced(polls[1..], held)
    else
      var f := polls[0].arrival;
      [f.slot] + (if f.slot == held || f.written then HoldAnnounced(polls[1..], held) else [])
  }

  /** The held slot: the one of the frame the picture has settled on. */
  function Held(arrivals: seq<Arrival>, settle: int): nat {
    var slots := Announced(arrivals);
    if 1 <= settle <= |slots| then slots[settle - 1] else NONE
  }

  ghost predicate NoLoss(log: seq<Event>) {
    forall i :: 0 <= i < |log| ==> !log[i].Lost?
  }

  /** One announcement read and, when it goes through, given back. */
  function Answer(slot: nat, written: bool): seq<Event> {
    [Read(slot), if written then Gave(slot) else Lost(slot)]
  }

  /** What the receiver does until it has read the frame to hold: `left` announcements
      away. */
  function ConsumeLog(arrivals: seq<Arrival>, left: int): seq<Event> {
    if left <= 0 || arrivals == [] || arrivals[0].Nothing? then []
    else if arrivals[0].Noise? then ConsumeLog(arrivals[1..], left)
    else if left == 1 then [Read(arrivals[0].slot)]
    else
      var f := arrivals[0];
      Answer(f.slot, f.written) + (if f.written then ConsumeLog(arrivals[1..], left - 1) else [])
  }

  /** What it does while it holds a slot. */
  function HoldLog(polls: seq<Poll>, held: nat): seq<Event> {
    if polls == [] || polls[0] == Got(Nothing) then []
    else if polls[0] == Quiet || polls[0] == Got(Noise) then HoldLog(polls[1..], held)
    else
      var f := polls[0].arrival;
      if f.slot == held then [Read(held)] + HoldLog(polls[1..], held)
      else Answer(f.slot, f.written) + (if f.written then HoldLog(polls[1..], held) else [])
  }

  /** The held slot is announced again. */
  predicate Again(arrivals: seq<Arrival>, settle: int, polls: seq<Poll>) {
    Held(arrivals, settle) in HoldAnnounced(Looks(polls), Held(arrivals, settle))
  }

  /** All it does in a test; `last` is whether the held slot could be given back. */
  function TestLog(arrivals: seq<Arrival>, settle: int, polls: seq<Poll>, last: bool): seq<Event> {
    var held := Held(arrivals, settle);
    if held == NONE then ConsumeLog(arrivals, settle)
    else
      var log := ConsumeLog(arrivals, settle) + HoldLog(Looks(polls), held);
      if Again(arrivals, settle, polls) then log else log + [if last then Gave(held) else Lost(held)]
  }

  /** A picture, pixel by pixel. */
  type Picture = seq<nat>

  predicate AllOneColour(picture: Picture) {
    forall i :: 0 < i < |picture| ==> picture[i] == picture[0]
  }

  /** What it concludes from the two readings of the held slot. */
  function Conclusion(arrivals: seq<Arrival>, settle: int, polls: seq<Poll>, first: Picture, second: Picture): Verdict {
    if Held(arrivals, settle) == NONE then NeverReached
    else if Again(arrivals, settle, polls) then HandedOutAgain
    else if AllOneColour(first) then Uniform else if first != second then Changed else Pass
  }

  lemma Nothing0()
    ensures Reads([]) == [] && Gives([]) == [] && Owned([]) == multiset{} && Proper([]) && NoLoss([])
  {
  }

  lemma OneRead(log: seq<Event>, slot: nat)
    requires Proper(log)
    ensures Reads(log + [Read(slot)]) == Reads(log) + [slot] && Proper(log + [Read(slot)])
    ensures Owned(log + [Read(slot)]) == Owned(log) + multiset{slot}
    ensures NoLoss(log) ==> NoLoss(log + [Read(slot)])
  {
    MoreReads(log, Read(slot));
    More(log, Read(slot));
  }

  lemma OneAnswer(log: seq<Event>, slot: nat, written: bool)
    requires Proper(log)
    ensures Reads(log + Answer(slot, written)) == Reads(log) + [slot] && Proper(log + Answer(slot, written))
    ensures Owned(log + Answer(slot, written)) == if written then Owned(log) else Owned(log) + multiset{slot}
    ensures NoLoss(log + Answer(slot, written)) <==> NoLoss(log) && written
  {
    hide Owned, Proper, Reads, NoLoss;
    var mid, last := log + [Read(slot)], if written then Gave(slot) else Lost(slot);
    OneRead(log, slot);
    MoreReads(mid, last);
    More(mid, last);
    NoLossMore(log, Read(slot));
    NoLossMore(mid, last);
    assert log + Answer(slot, written) == mid + [last];
    assert Reads(mid) + [] == Reads(mid);
    assert Owned(log) + multiset{slot} - multiset{slot} == Owned(log);
  }

  lemma NoLossMore(log: seq<Event>, e: Event)
    ensures NoLoss(log + [e]) <==> NoLoss(log) && !e.Lost?
  {
    var more := log + [e];
    assert more[|log|] == e;
    assert forall i :: 0 <= i < |log| ==> more[i] == log[i];
  }

  function UpTo(slots: seq<nat>, left: int): seq<nat> {
    if left <= 0 then [] else if left <= |slots| then slots[..left] else slots
  }

  /** What the receiver is left with once it has read the frame to hold. */
  ghost predicate Reached(log: seq<Event>, slot: nat) {
    NoLoss(log) && Owned(log) == multiset{slot} && log != [] && log[|log| - 1] == Read(slot)
  }

  /** The announcements read until the frame to hold: all were given back, but that one. */
  lemma {:induction false} ConsumeKeeps(before: seq<Event>, arrivals: seq<Arrival>, left: int)
    requires Proper(before) && NoLoss(before) && Owned(before) == multiset{}
    ensures var log, slots := before + ConsumeLog(arrivals, left), Announced(arrivals);
            && Proper(log) && Reads(log) == Reads(before) + UpTo(slots, left)
            && (1 <= left <= |slots| ==> Reached(log, slots[left - 1]))
    decreases |arrivals|, 0
  {
    hide Owned, Proper, Reads, NoLoss, Answer, ConsumeLog, Announced, Reached, UpTo;
    NoneAnnounced();
    UpToNone(Announced(arrivals), left);
    assert before + [] == before && Reads(before) + [] == Reads(before);
    if left > 0 && arrivals != [] {
      var f, rest := arrivals[0], arrivals[1..];
      NextAnnounced(arrivals, 0);
      NextConsumed(arrivals, 0, left);
      assert arrivals[0..] == arrivals;
      if f.Noise? {
        ConsumeKeeps(before, rest, left);
      } else if f.Frame? && left == 1 {
        OneReached(before, f.slot);
      } else if f.Frame? {
        AnswerKeeps(before, f, rest, left);
      }
    }
  }

  lemma {:induction false} AnswerKeeps(before: seq<Event>, f: Arrival, rest: seq<Arrival>, left: int)
    requires Proper(before) && NoLoss(before) && Owned(before) == multiset{} && f.Frame? && left > 1
    ensures var slots := [f.slot] + (if f.written then Announced(rest) else []);
            var log := before + (Answer(f.slot, f.written) + (if f.written then ConsumeLog(rest, left - 1) else []));
            && Proper(log) && Reads(log) == Reads(before) + UpTo(slots, left)
            && (left <= |slots| ==> Reached(log, slots[left - 1]))
    decreases |rest|, 1
  {
    hide Owned, Proper, Reads, NoLoss, Answer, ConsumeLog, Announced, Reached, UpTo;
    var mid := before + Answer(f.slot, f.written);
    OneAnswer(before, f.slot, f.written);
    if f.written {
      ConsumeKeeps(mid, rest, left - 1);
      UpToMore(Reads(before), f.slot, Announced(rest), left);
      assert before + (Answer(f.slot, true) + ConsumeLog(rest, left - 1)) == mid + ConsumeLog(rest, left - 1);
    } else {
      UpToMore(Reads(before), f.slot, [], left);
      UpToNone([], left - 1);
      assert before + (Answer(f.slot, false) + []) == mid && [f.slot] + [] == [f.slot];
      assert Reads(before) + [f.slot] + [] == Reads(before) + [f.slot];
    }
  }

  lemma OneReached(log: seq<Event>, slot: nat)
    requires Proper(log) && NoLoss(log) && Owned(log) == multiset{}
    ensures Proper(log + [Read(slot)]) && Reached(log + [Read(slot)], slot)
    ensures Reads(log + [Read(slot)]) == Reads(log) + [slot]
  {
    OneRead(log, slot);
  }

  lemma UpToNone(slots: seq<nat>, left: int)
    ensures left <= 0 || slots == [] ==> UpTo(slots, left) == []
    ensures left == 1 && slots != [] ==> UpTo(slots, left) == [slots[0]]
  {
  }

  lemma UpToMore(done: seq<nat>, slot: nat, rest: seq<nat>, left: int)
    requires left > 1
    ensures done + UpTo([slot] + rest, left) == done + [slot] + UpTo(rest, left - 1)
  {
    assert left <= 1 + |rest| ==> ([slot] + rest)[..left] == [slot] + rest[..left - 1];
  }

  /** Reading, and giving back at once, until the frame to hold. */
  method Consume(arrivals: seq<Arrival>, settle: int) returns (log: seq<Event>, held: nat)
    ensures log == ConsumeLog(arrivals, settle) && held == Held(arrivals, settle)
  {
    hide Announced, ConsumeLog, Answer;
    log, held := [], NONE;
    var consumed, i := 0, 0;
    ghost var all, read: seq<nat> := ConsumeLog(arrivals, settle), [];
    assert arrivals[0..] == arrivals;
    while consumed < settle && i < |arrivals|
      invariant 0 <= i <= |arrivals| && 0 <= consumed == |read| && (settle > 0 ==> consumed < settle) && held == NONE
      invariant Announced(arrivals) == read + Announced(arrivals[i..])
      invariant all == log + ConsumeLog(arrivals[i..], settle - consumed)
    {
      var arrival := arrivals[i];
      NextAnnounced(arrivals, i);
      NextConsumed(arrivals, i, settle - consumed);
      ghost var before, more, slots := log, ConsumeLog(arrivals[i + 1..], settle - consumed - 1), arrivals[i + 1..];
      i := i + 1;
      if arrival.Nothing? {
        return;
      }
      if arrival.Frame? {
        consumed := consumed + 1;
        assert read + ([arrival.slot] + Announced(slots)) == read + [arrival.slot] + Announced(slots);
        read := read + [arrival.slot];
        if consumed == settle {
          log, held := log + [Read(arrival.slot)], arrival.slot;
          return;
        }
        log := log + Answer(arrival.slot, arrival.written);
        if !arrival.written {
          return;
        }
        assert before + (Answer(arrival.slot, true) + more) == log + more;
      }
    }
    NoneAnnounced();
    assert settle > 0 ==> arrivals[i..] == [];
  }

  lemma NoneAnnounced()
    ensures Announced([]) == []
    ensures forall left: int, arrivals :: left <= 0 ==> ConsumeLog(arrivals, left) == []
    ensures forall left: int :: ConsumeLog([], left) == []
  {
  }

  lemma NextAnnounced(arrivals: seq<Arrival>, i: nat)
    requires i < |arrivals|
    ensures var a := arrivals[i];
            Announced(arrivals[i..])
            == if a.Nothing? then [] else if a.Noise? then Announced(arrivals[i + 1..])
               else [a.slot] + (if a.written then Announced(arrivals[i + 1..]) else [])
  {
    assert arrivals[i..][1..] == arrivals[i + 1..];
  }

  lemma NextConsumed(arrivals: seq<Arrival>, i: nat, left: int)
    requires i < |arrivals| && left > 0
    ensures var a := arrivals[i];
            ConsumeLog(arrivals[i..], left)
            == if a.Nothing? then [] else if a.Noise? then ConsumeLog(arrivals[i + 1..], left)
               else if left == 1 then [Read(a.slot)]
               else Answer(a.slot, a.written) + (if a.written then ConsumeLog(arrivals[i + 1..], left - 1) else [])
  {
    assert arrivals[i..][1..] == arrivals[i + 1..];
  }

  /** As many looks as fit in the hold. */
  function Looks(polls: seq<Poll>): seq<Poll> {
    if |polls| > HOLD_MS / STEP_MS then polls[..HOLD_MS / STEP_MS] else polls
  }

  lemma NextHold(polls: seq<Poll>, held: nat, i: nat)
    requires i < |polls|
    ensures HoldAnnounced(polls[i..], held) ==
            match polls[i] {
              case Quiet => HoldAnnounced(polls[i + 1..], held)
              case Got(a) =>
                if a.Nothing? then [] else if a.Noise? then HoldAnnounced(polls[i + 1..], held)
                else [a.slot] + (if a.slot == held || a.written then HoldAnnounced(polls[i + 1..], held) else [])
            }
    ensures HoldLog(polls[i..], held) ==
            match polls[i] {
              case Quiet => HoldLog(polls[i + 1..], held)
              case Got(a) =>
                if a.Nothing? then [] else if a.Noise? then HoldLog(polls[i + 1..], held)
                else if a.slot == held then [Read(held)] + HoldLog(polls[i + 1..], held)
                else Answer(a.slot, a.written) + (if a.written then HoldLog(polls[i + 1..], held) else [])
            }
  {
    assert polls[i..][1..] == polls[i + 1..];
  }

  lemma NoneHeld(held: nat)
    ensures HoldAnnounced([], held) == [] && HoldLog([], held) == [] && Times([], held) == 0
  {
  }

  /** What the receiver owes while it holds a slot: that slot, and one more when
      giving it back did not go through, which ends the hold. */
  ghost predicate Owing(log: seq<Event>, held: nat) {
    if NoLoss(log) then Owned(log) == multiset{held}
    else log != [] && log[|log| - 1].Lost? && NoLoss(log[..|log| - 1]) && log[|log| - 1].slot != held
         && Owned(log) == multiset{held, log[|log| - 1].slot}
  }

  /** The held slot is neither announced nor answered from one event on. */
  ghost predicate Untouched(log: seq<Event>, from: nat, held: nat) {
    forall i :: from <= i < |log| ==> log[i].slot != held
  }

  /** A hold so far: nothing owed but the held slot, or the slot was announced again. */
  ghost predicate Holding(log: seq<Event>, from: nat, held: nat, again: nat) {
    && Proper(log)
    && (again == 0 ==> NoLoss(log) && Owned(log) == multiset{held} && Untouched(log, from, held))
    && (again > 0 ==> !Fair(log))
  }

  lemma HeldAgain(log: seq<Event>, from: nat, held: nat, again: nat)
    requires Holding(log, from, held, again)
    ensures Holding(log + [Read(held)], from, held, again + 1)
    ensures Reads(log + [Read(held)]) == Reads(log) + [held]
  {
    hide Owned, Proper, Reads, NoLoss, Fair, Untouched;
    OneRead(log, held);
    More(log, Read(held));
  }

  lemma OtherAnswered(log: seq<Event>, from: nat, held: nat, again: nat, slot: nat, written: bool)
    requires Holding(log, from, held, again) && slot != held && from <= |log|
    ensures written || again > 0 ==> Holding(log + Answer(slot, written), from, held, again)
    ensures again == 0 && !written ==>
              Proper(log + Answer(slot, written)) && Owing(log + Answer(slot, written), held)
              && Untouched(log + Answer(slot, written), from, held)
    ensures Reads(log + Answer(slot, written)) == Reads(log) + [slot]
  {
    hide Owned, Proper, Reads, NoLoss, Fair, Owing, Untouched;
    OneAnswer(log, slot, written);
    StillUnfair(log, slot, written);
    OtherUntouched(log, from, held, slot, written);
    if again == 0 && !written {
      OneLost(log, held, slot);
    }
  }

  lemma StillUnfair(log: seq<Event>, slot: nat, written: bool)
    ensures !Fair(log) ==> !Fair(log + Answer(slot, written))
  {
    hide Owned, Fair;
    var mid, last := log + [Read(slot)], if written then Gave(slot) else Lost(slot);
    assert log + Answer(slot, written) == mid + [last];
    More(log, Read(slot));
    More(mid, last);
  }

  lemma OtherUntouched(log: seq<Event>, from: nat, held: nat, slot: nat, written: bool)
    requires slot != held && from <= |log|
    ensures Untouched(log, from, held) ==> Untouched(log + Answer(slot, written), from, held)
  {
  }

  lemma OneLost(log: seq<Event>, held: nat, slot: nat)
    requires Proper(log) && NoLoss(log) && Owned(log) == multiset{held} && slot != held
    ensures Owing(log + Answer(slot, false), held)
  {
    hide Owned, Proper, Reads, NoLoss;
    var mid, all := log + [Read(slot)], log + Answer(slot, false);
    OneAnswer(log, slot, false);
    NoLossMore(log, Read(slot));
    assert all == mid + [Lost(slot)] && all[..|all| - 1] == mid;
    assert multiset{held} + multiset{slot} == multiset{held, slot};
  }

  /** How often a slot is in a list. */
  function Times(slots: seq<nat>, slot: nat): nat {
    multiset(slots)[slot]
  }

  lemma TimesOneMore(s: nat, rest: seq<nat>, slot: nat)
    ensures Times([s] + rest, slot) == (if s == slot then 1 else 0) + Times(rest, slot)
    ensures Times([], slot) == 0
  {
    HeadOff([s] + rest);
    assert ([s] + rest)[1..] == rest;
  }

  /** The end of a hold: the held slot was announced again so many times, or is owed with
      at most one other. */
  ghost predicate HoldEnded(log: seq<Event>, from: nat, held: nat, times: nat) {
    && Proper(log) && (times > 0 ==> !Fair(log))
    && (times == 0 ==> Owing(log, held) && Untouched(log, from, held))
  }

  lemma HoldingIs(log: seq<Event>, from: nat, held: nat, again: nat)
    ensures Holding(log, from, held, again) ==> HoldEnded(log, from, held, again)
  {
  }

  lemma {:induction false} HoldKeeps(before: seq<Event>, from: nat, looks: seq<Poll>, held: nat, again: nat)
    requires Holding(before, from, held, again) && from <= |before|
    ensures HoldEnded(before + HoldLog(looks, held), from, held, again + Times(HoldAnnounced(looks, held), held))
    ensures Reads(before + HoldLog(looks, held)) == Reads(before) + HoldAnnounced(looks, held)
    decreases |looks|, 0
  {
    hide Owned, Reads, Holding, HoldEnded, Times, Answer, HoldLog, HoldAnnounced;
    NoneHeld(held);
    assert before + [] == before && Reads(before) + [] == Reads(before);
    HoldingIs(before, from, held, again);
    if looks != [] {
      var look, rest := looks[0], looks[1..];
      NextHold(looks, held, 0);
      assert looks[0..] == looks;
      if look == Quiet || look == Got(Noise) {
        HoldKeeps(before, from, rest, held, again);
      } else if look != Got(Nothing) {
        FrameKeeps(before, from, look.arrival, rest, held, again);
      }
    }
  }

  /** The frame of one look, then the rest. */
  lemma {:induction false} FrameKeeps(before: seq<Event>, from: nat, f: Arrival, rest: seq<Poll>, held: nat,
                                      again: nat)
    requires Holding(before, from, held, again) && from <= |before| && f.Frame?
    ensures var more := if f.slot == held || f.written then HoldLog(rest, held) else [];
            var slots := if f.slot == held || f.written then HoldAnnounced(rest, held) else [];
            var log := before + ((if f.slot == held then [Read(held)] else Answer(f.slot, f.written)) + more);
            && HoldEnded(log, from, held, again + Times([f.slot] + slots, held))
            && Reads(log) == Reads(before) + ([f.slot] + slots)
    decreases |rest|, 1
  {
    hide Owned, Reads, Holding, HoldEnded, Times, Answer, HoldLog, HoldAnnounced;
    var slots := HoldAnnounced(rest, held);
    TimesOneMore(f.slot, slots, held);
    TimesOneMore(f.slot, [], held);
    var mid := before + if f.slot == held then [Read(held)] else Answer(f.slot, f.written);
    if f.slot == held {
      HeldAgain(before, from, held, again);
      HoldKeeps(mid, from, rest, held, again + 1);
      assert mid + HoldLog(rest, held) == before + ([Read(held)] + HoldLog(rest, held));
    } else {
      OtherAnswered(before, from, held, again, f.slot, f.written);
      if f.written {
        HoldKeeps(mid, from, rest, held, again);
        assert mid + HoldLog(rest, held) == before + (Answer(f.slot, true) + HoldLog(rest, held));
      } else {
        OtherEnds(before, from, held, again, f.slot);
        assert mid == before + (Answer(f.slot, false) + []);
      }
    }
    assert Reads(before) + [f.slot] + slots == Reads(before) + ([f.slot] + slots) && [f.slot] + [] == [f.slot];
  }

  lemma OtherEnds(log: seq<Event>, from: nat, held: nat, again: nat, slot: nat)
    requires Holding(log, from, held, again) && slot != held && from <= |log|
    ensures HoldEnded(log + Answer(slot, false), from, held, again)
  {
    hide Owned, Proper, Reads, NoLoss, Fair, Owing, Untouched, Answer;
    OtherAnswered(log, from, held, again, slot, false);
    HoldingIs(log + Answer(slot, false), from, held, again);
  }

  lemma HoldStarts(early: seq<Event>, held: nat)
    requires Proper(early) && NoLoss(early) && Owned(early) == multiset{held}
    ensures Holding(early, |early|, held, 0)
  {
  }

  /** Keeps the held slot for half a second and gives every other one back at once. */
  method Hold(polls: seq<Poll>, held: nat, early: seq<Event>) returns (log: seq<Event>, again: nat)
    ensures log == early + HoldLog(Looks(polls), held)
    ensures again == Times(HoldAnnounced(Looks(polls), held), held)
  {
    hide HoldAnnounced, HoldLog, Times, Answer;
    var looks := Looks(polls);
    ghost var done, all: seq<nat> := HoldLog(looks, held), HoldAnnounced(looks, held);
    log, again := early, 0;
    var i := 0;
    NoneHeld(held);
    assert looks[0..] == looks;
    while i * STEP_MS < HOLD_MS && i < |looks|
      invariant 0 <= i <= |looks|
      invariant early + done == log + HoldLog(looks[i..], held)
      invariant Times(all, held) == again + Times(HoldAnnounced(looks[i..], held), held)
    {
      NextHold(looks, held, i);
      var look := looks[i];
      ghost var before, rest, more := log, HoldAnnounced(looks[i + 1..], held), HoldLog(looks[i + 1..], held);
      i := i + 1;
      if look == Got(Nothing) {
        assert log + [] == log;
        return;
      }
      if look.Got? && look.arrival.Frame? {
        var slot, written := look.arrival.slot, look.arrival.written;
        TimesOneMore(slot, rest, held);
        TimesOneMore(slot, [], held);
        if slot == held {
          log, again := log + [Read(held)], again + 1;
          assert before + ([Read(held)] + more) == log + more;
        } else {
          log := log + Answer(slot, written);
          assert before + (Answer(slot, written) + more) == log + more;
          if !written {
            assert before + (Answer(slot, written) + []) == log;
            return;
          }
        }
      }
    }
    assert looks[i..] == [] && log + [] == log;
  }

  // ---- the verdict -----------------------------------------------------------

  /** The slots owed at the end: those whose way back did not go through. */
  function Losses(log: seq<Event>): seq<nat> {
    if log == [] then []
    else Losses(log[..|log| - 1]) + (if log[|log| - 1].Lost? then [log[|log| - 1].slot] else [])
  }

  lemma MoreLosses(log: seq<Event>, e: Event)
    ensures Losses(log + [e]) == Losses(log) + (if e.Lost? then [e.slot] else [])
  {
    assert (log + [e])[..|log|] == log;
  }

  lemma {:induction false} NoLossNoLosses(log: seq<Event>)
    ensures NoLoss(log) <==> Losses(log) == []
  {
    if log != [] {
      var early, last := log[..|log| - 1], log[|log| - 1];
      assert log == early + [last];
      NoLossNoLosses(early);
      NoLossMore(early, last);
    }
  }

  /** From its announcement on, the held slot is only touched by the last event. */
  ghost predicate HeldToTheEnd(log: seq<Event>, from: nat, held: nat) {
    && from + 1 < |log| && log[from] == Read(held)
    && log[|log| - 1].slot == held && !log[|log| - 1].Read?
    && forall i :: from < i < |log| - 1 ==> log[i].slot != held
  }

  lemma Consumed(arrivals: seq<Arrival>, settle: int)
    ensures var log, held := ConsumeLog(arrivals, settle), Held(arrivals, settle);
            && Proper(log)
            && (held != NONE ==> Reached(log, held) && Reads(log) == Announced(arrivals)[..settle])
  {
    hide Owned, Proper, Reads, NoLoss, Announced, ConsumeLog, Reached;
    Nothing0();
    ConsumeKeeps([], arrivals, settle);
    assert [] + ConsumeLog(arrivals, settle) == ConsumeLog(arrivals, settle);
  }

  /** What a test that reaches its frame owes and keeps. */
  lemma TestKeeps(arrivals: seq<Arrival>, settle: int, polls: seq<Poll>, last: bool)
    ensures var log := TestLog(arrivals, settle, polls, last);
            var held := Held(arrivals, settle);
            && Proper(log)
            && (held != NONE ==>
                  Reads(log) == Announced(arrivals)[..settle] + HoldAnnounced(Looks(polls), held))
            && (held != NONE && Again(arrivals, settle, polls) ==> !Fair(log))
            && (held != NONE && !Again(arrivals, settle, polls) ==>
                  && Owned(log) == multiset(Losses(log)) && |Losses(log)| <= 2
                  && exists from :: HeldToTheEnd(log, from, held))
  {
    hide Owned, Proper, Reads, NoLoss, Announced, HoldAnnounced, Fair, Losses, Owing, Untouched, ConsumeLog, HoldLog,
      HeldToTheEnd, Holding, Looks, Times;
    var held := Held(arrivals, settle);
    var early := ConsumeLog(arrivals, settle);
    Consumed(arrivals, settle);
    if held != NONE {
      HoldStarts(early, held);
      HoldKeeps(early, |early|, Looks(polls), held, 0);
      TimesIn(HoldAnnounced(Looks(polls), held), held);
      var log := early + HoldLog(Looks(polls), held);
      if !Again(arrivals, settle, polls) {
        assert log[..|early|] == early;
        GivenAtTheEnd(log, early, held, last);
      }
    }
  }

  /** The pixels among the first ones that changed between the two readings. */
  ghost function Moving(first: Picture, second: Picture, n: nat): set<nat>
    requires n <= |first| == |second|
  {
    set i: nat | i < n && first[i] != second[i]
  }

  /** How many pixels changed between the two readings. */
  method Differing(first: Picture, second: Picture) returns (n: nat)
    requires |first| == |second|
    ensures n == |Moving(first, second, |first|)|
    ensures n == 0 <==> first == second
  {
    n := 0;
    for i := 0 to |first|
      invariant n == |Moving(first, second, i)|
      invariant n == 0 <==> first[..i] == second[..i]
    {
      assert first[..i + 1] == first[..i] + [first[i]] && second[..i + 1] == second[..i] + [second[i]];
      assert Moving(first, second, i + 1)
             == Moving(first, second, i) + if first[i] != second[i] then {i} else {};
      if first[i] != second[i] {
        n := n + 1;
      }
    }
    assert first[..|first|] == first && second[..|first|] == second;
  }

  /** Whether a picture carries no image. */
  method OneColour(picture: Picture) returns (uniform: bool)
    requires picture != []
    ensures uniform <==> AllOneColour(picture)
  {
    for i := 0 to |picture|
      invariant forall k :: 0 <= k < i ==> picture[k] == picture[0]
    {
      if picture[i] != picture[0] {
        return false;
      }
    }
    return true;
  }

  /** The whole test. */
  method Receive(arrivals: seq<Arrival>, settle: int, polls: seq<Poll>, first: Picture, second: Picture, last: bool)
    returns (log: seq<Event>, verdict: Verdict)
    requires |first| == |second| > 0
    ensures log == TestLog(arrivals, settle, polls, last)
    ensures verdict == Conclusion(arrivals, settle, polls, first, second)
    ensures Proper(log) && multiset(Reads(log)) == multiset(Gives(log)) + Owned(log)
    ensures verdict.HandedOutAgain? ==> !Fair(log)
    ensures !verdict.NeverReached? ==>
              Reads(log) == Announced(arrivals)[..settle] + HoldAnnounced(Looks(polls), Held(arrivals, settle))
    ensures verdict.Uniform? || verdict.Changed? || verdict.Pass? ==>
              && Owned(log) == multiset(Losses(log)) && |Losses(log)| <= 2
              && exists from :: HeldToTheEnd(log, from, Held(arrivals, settle))
  {
    hide Owned, Proper, Reads, Gives, NoLoss, Announced, HoldAnnounced, Fair, Losses, HeldToTheEnd, ConsumeLog, HoldLog,
      Looks, Held;
    var held: nat;
    log, held := Consume(arrivals, settle);
    TestKeeps(arrivals, settle, polls, last);
    NothingVanishes(TestLog(arrivals, settle, polls, last));
    if held == NONE {
      return log, NeverReached;
    }
    var again: nat;
    log, again := Hold(polls, held, log);
    TimesIn(HoldAnnounced(Looks(polls), held), held);
    if again > 0 {
      return log, HandedOutAgain;
    }
    var differing := Differing(first, second);
    var uniform := OneColour(first);
    verdict := if uniform then Uniform else if differing > 0 then Changed else Pass;
    log := log + [if last then Gave(held) else Lost(held)];
  }

  lemma TimesIn(slots: seq<nat>, slot: nat)
    ensures Times(slots, slot) > 0 <==> slot in slots
  {
  }

  lemma {:induction false} LostAtMostLast(log: seq<Event>, held: nat)
    requires Owing(log, held)
    ensures Owned(log) == multiset{held} + multiset(Losses(log)) && |Losses(log)| <= 1
  {
    hide Owned;
    if NoLoss(log) {
      NoLossNoLosses(log);
      assert multiset(Losses(log)) == multiset{};
    } else {
      var early, last := log[..|log| - 1], log[|log| - 1];
      NoLossNoLosses(early);
      assert Losses(log) == [last.slot];
      assert multiset{held, last.slot} == multiset{held} + multiset{last.slot};
    }
  }

  lemma GivenAtTheEnd(log: seq<Event>, early: seq<Event>, held: nat, last: bool)
    requires Proper(log) && Owing(log, held) && Untouched(log, |early|, held)
    requires early != [] && early[|early| - 1] == Read(held) && |early| <= |log| && log[..|early|] == early
    ensures var e := if last then Gave(held) else Lost(held);
            && Proper(log + [e]) && Reads(log + [e]) == Reads(log)
            && Owned(log + [e]) == multiset(Losses(log + [e])) && |Losses(log + [e])| <= 2
            && HeldToTheEnd(log + [e], |early| - 1, held)
  {
    hide Owned, Proper, Reads, NoLoss, Losses, Owing;
    var e := if last then Gave(held) else Lost(held);
    LostAtMostLast(log, held);
    More(log, e);
    MoreReads(log, e);
    MoreLosses(log, e);
    assert Reads(log) + [] == Reads(log) && Losses(log) + [] == Losses(log);
    assert log[|early| - 1] == log[..|early|][|early| - 1];
    assert multiset{held} + multiset(Losses(log)) - multiset{held} == multiset(Losses(log));
    assert multiset(Losses(log) + [held]) == multiset(Losses(log)) + multiset{held};
  }

  /** A release fails while a slot is held: a look, with no end of the channel before it,
      finds another announced slot that cannot be given back. */
  ghost predicate ReleaseFails(looks: seq<Poll>, held: nat) {
    exists i :: 0 <= i < |looks| && Unreleased(looks[i], held) && Got(Nothing) !in looks[..i]
  }

  predicate Unreleased(look: Poll, held: nat) {
    look.Got? && look.arrival.Frame? && look.arrival.slot != held && !look.arrival.written
  }

  lemma ReleaseFailsNext(looks: seq<Poll>, held: nat)
    requires looks != []
    ensures ReleaseFails(looks, held)
            <==> Unreleased(looks[0], held) || (looks[0] != Got(Nothing) && ReleaseFails(looks[1..], held))
  {
    var rest := looks[1..];
    if Unreleased(looks[0], held) {
      assert Got(Nothing) !in looks[..0];
    }
    if ReleaseFails(looks, held) && !Unreleased(looks[0], held) {
      var i :| 0 <= i < |looks| && Unreleased(looks[i], held) && Got(Nothing) !in looks[..i];
      assert looks[..i][0] == looks[0] && rest[..i - 1] == looks[..i][1..] && rest[i - 1] == looks[i];
    }
    if looks[0] != Got(Nothing) && ReleaseFails(rest, held) {
      var i :| 0 <= i < |rest| && Unreleased(rest[i], held) && Got(Nothing) !in rest[..i];
      assert looks[..i + 1] == [looks[0]] + rest[..i] && looks[i + 1] == rest[i];
    }
  }

  lemma {:induction false} HoldLosesIff(looks: seq<Poll>, held: nat)
    ensures NoLoss(HoldLog(looks, held)) <==> !ReleaseFails(looks, held)
    decreases |looks|
  {
    hide NoLoss, ReleaseFails, HoldLog, Answer;
    NoneHeld(held);
    NothingFails(held);
    if looks != [] {
      var look, more := looks[0], HoldLog(looks[1..], held);
      ReleaseFailsNext(looks, held);
      NextHold(looks, held, 0);
      assert looks[0..] == looks;
      if look != Got(Nothing) {
        HoldLosesIff(looks[1..], held);
      }
      if look.Got? && look.arrival.Frame? {
        var f := look.arrival;
        AnswerLosesIff(f.slot, f.written);
        NoLossOfBoth([Read(f.slot)], more);
        NoLossOfBoth(Answer(f.slot, f.written), if f.written then more else []);
      }
    }
  }

  lemma NothingFails(held: nat)
    ensures !ReleaseFails([], held) && NoLoss([])
  {
  }

  lemma NoLossOfBoth(a: seq<Event>, b: seq<Event>)
    ensures NoLoss(a + b) <==> NoLoss(a) && NoLoss(b)
  {
    assert forall i :: 0 <= i < |a| ==> (a + b)[i] == a[i];
    assert forall i :: 0 <= i < |b| ==> (a + b)[|a| + i] == b[i];
  }

  lemma AnswerLosesIff(slot: nat, written: bool)
    ensures (NoLoss(Answer(slot, written)) <==> written) && NoLoss([Read(slot)])
  {
    assert Answer(slot, written)[1] == if written then Gave(slot) else Lost(slot);
  }

  /** A test that came to its pictures gave back exactly the slots it read announced, if
      and only if the held slot could be given back and no other release failed while it
      was held. What the test concludes does not depend on either. */
  lemma AllGivenBackIff(arrivals: seq<Arrival>, settle: int, polls: seq<Poll>, last: bool)
    requires Held(arrivals, settle) != NONE && !Again(arrivals, settle, polls)
    ensures var log := TestLog(arrivals, settle, polls, last);
            multiset(Gives(log)) == multiset(Reads(log))
            <==> last && !ReleaseFails(Looks(polls), Held(arrivals, settle))
  {
    hide Owned, Proper, Reads, Gives, NoLoss, Losses, ConsumeLog, HoldLog, ReleaseFails, Looks, Announced;
    var log, held := TestLog(arrivals, settle, polls, last), Held(arrivals, settle);
    TestKeeps(arrivals, settle, polls, last);
    NothingVanishes(log);
    NoLossNoLosses(log);
    var early := ConsumeLog(arrivals, settle);
    Consumed(arrivals, settle);
    HoldLosesIff(Looks(polls), held);
    NoLossOfBoth(early, HoldLog(Looks(polls), held));
    NoLossMore(early + HoldLog(Looks(polls), held), if last then Gave(held) else Lost(held));
    if Losses(log) != [] {
      assert Losses(log)[0] in multiset(Losses(log));
      assert |multiset(Reads(log))| == |multiset(Gives(log))| + |multiset(Losses(log))|;
    }
  }

  // ---- when the test passes --------------------------------------------------

  function Frames(arrivals: seq<Arrival>): nat {
    if arrivals == [] then 0 else (if arrivals[0].Frame? then 1 else 0) + Frames(arrivals[1..])
  }

  /** Nothing ends the reading: not the end of the channel, not a slot that cannot be given
      back. */
  ghost predicate AllGoThrough(arrivals: seq<Arrival>) {
    forall i :: 0 <= i < |arrivals| ==> !arrivals[i].Nothing? && (arrivals[i].Frame? ==> arrivals[i].written)
  }

  /** The picture settles with this arrival: the frame of that number, all before it having
      gone through. */
  ghost predicate Settles(arrivals: seq<Arrival>, settle: int, i: int) {
    0 <= i < |arrivals| && arrivals[i].Frame? && Frames(arrivals[..i]) + 1 == settle && AllGoThrough(arrivals[..i])
  }

  lemma SettlesNext(arrivals: seq<Arrival>, settle: int, i: nat)
    requires 0 < i < |arrivals|
    ensures Settles(arrivals, settle, i)
            <==> && !arrivals[0].Nothing? && (arrivals[0].Frame? ==> arrivals[0].written)
                 && Settles(arrivals[1..], settle - (if arrivals[0].Frame? then 1 else 0), i - 1)
  {
    assert arrivals[..i][0] == arrivals[0] && arrivals[..i][1..] == arrivals[1..][..i - 1];
    assert arrivals[..i] == [arrivals[0]] + arrivals[1..][..i - 1];
  }

  lemma {:induction false} SettlesIff(arrivals: seq<Arrival>, settle: int, slot: nat)
    ensures 1 <= settle <= |Announced(arrivals)| && Announced(arrivals)[settle - 1] == slot
            <==> exists i :: Settles(arrivals, settle, i) && arrivals[i].slot == slot
    decreases |arrivals|
  {
    hide Announced, Settles;
    NoneAnnounced();
    if arrivals == [] {
      assert forall i :: !Settles(arrivals, settle, i) by { NothingSettles(settle); }
    } else {
      var a, rest := arrivals[0], arrivals[1..];
      NextAnnounced(arrivals, 0);
      assert arrivals[0..] == arrivals;
      SettlesFirst(arrivals, settle);
      SettlesLater(arrivals, settle, slot);
      SettlesIff(rest, settle - (if a.Frame? then 1 else 0), slot);
    }
  }

  lemma NothingSettles(settle: int)
    ensures forall i :: !Settles([], settle, i)
  {
  }

  lemma SettlesFirst(arrivals: seq<Arrival>, settle: int)
    requires arrivals != []
    ensures Settles(arrivals, settle, 0) <==> arrivals[0].Frame? && settle == 1
  {
    assert arrivals[..0] == [];
  }

  lemma SettlesLater(arrivals: seq<Arrival>, settle: int, slot: nat)
    requires arrivals != []
    ensures var left := settle - (if arrivals[0].Frame? then 1 else 0);
            (exists i :: Settles(arrivals, settle, i) && arrivals[i].slot == slot)
            <==> || (Settles(arrivals, settle, 0) && arrivals[0].slot == slot)
                 || (&& !arrivals[0].Nothing? && (arrivals[0].Frame? ==> arrivals[0].written)
                     && exists i :: Settles(arrivals[1..], left, i) && arrivals[1..][i].slot == slot)
  {
    var left := settle - (if arrivals[0].Frame? then 1 else 0);
    forall i: nat | 0 < i < |arrivals|
      ensures Settles(arrivals, settle, i)
              <==> && !arrivals[0].Nothing? && (arrivals[0].Frame? ==> arrivals[0].written)
                   && Settles(arrivals[1..], left, i - 1)
    {
      SettlesNext(arrivals, settle, i);
    }
    if i :| Settles(arrivals[1..], left, i) && arrivals[1..][i].slot == slot {
      assert arrivals[i + 1] == arrivals[1..][i];
      if !arrivals[0].Nothing? && (arrivals[0].Frame? ==> arrivals[0].written) {
        assert Settles(arrivals, settle, i + 1);
      }
    }
  }

  /** The held slot is announced again at this look, nothing having ended the hold before. */
  ghost predicate AgainAt(looks: seq<Poll>, held: nat, j: int) {
    && 0 <= j < |looks| && looks[j].Got? && looks[j].arrival.Frame? && looks[j].arrival.slot == held
    && forall k :: 0 <= k < j ==> looks[k] != Got(Nothing) && !Unreleased(looks[k], held)
  }

  lemma {:induction false} AgainIff(looks: seq<Poll>, held: nat)
    ensures held in HoldAnnounced(looks, held) <==> exists j :: AgainAt(looks, held, j)
    decreases |looks|
  {
    hide HoldAnnounced;
    NoneHeld(held);
    if looks != [] {
      var rest := looks[1..];
      NextHold(looks, held, 0);
      assert looks[0..] == looks;
      AgainIff(rest, held);
      if j :| AgainAt(rest, held, j) {
        assert forall k :: 0 < k <= j ==> looks[k] == rest[k - 1];
        assert looks[0] != Got(Nothing) && !Unreleased(looks[0], held) ==> AgainAt(looks, held, j + 1);
      }
      if j :| AgainAt(looks, held, j) {
        assert j > 0 ==> AgainAt(rest, held, j - 1);
      }
      if looks[0].Got? && looks[0].arrival.Frame? && looks[0].arrival.slot == held {
        assert AgainAt(looks, held, 0);
      }
    }
  }

  /** The test passes if and only if the picture settles on a slot, that slot is not announced
      again in the fifty looks of the hold, its picture carries an image, and it has not
      changed. */
  lemma PassIff(arrivals: seq<Arrival>, settle: int, polls: seq<Poll>, first: Picture, second: Picture)
    ensures Conclusion(arrivals, settle, polls, first, second) == Pass
            <==> exists i :: Settles(arrivals, settle, i) && arrivals[i].slot != NONE
                             && (forall j :: j < 50 ==> !AgainAt(polls, arrivals[i].slot, j))
                             && (exists k :: 0 < k < |first| && first[k] != first[0]) && first == second
  {
    hide Announced, HoldAnnounced, Settles, AgainAt, Looks, AllGoThrough;
    var held := Held(arrivals, settle);
    AgainIff(Looks(polls), held);
    FiftyLooks(polls, held);
    SettlesIff(arrivals, settle, held);
    forall i | Settles(arrivals, settle, i)
      ensures 0 <= i < |arrivals| && arrivals[i].Frame? && arrivals[i].slot == held
    {
      SettledIsAFrame(arrivals, settle, i);
      SettlesIff(arrivals, settle, arrivals[i].slot);
    }
  }

  lemma FiftyLooks(polls: seq<Poll>, held: nat)
    ensures forall j :: AgainAt(Looks(polls), held, j) <==> j < 50 && AgainAt(polls, held, j)
  {
    var looks := Looks(polls);
    assert forall k :: 0 <= k < |looks| ==> looks[k] == polls[k];
    assert |looks| == if |polls| > 50 then 50 else |polls|;
  }

  lemma SettledIsAFrame(arrivals: seq<Arrival>, settle: int, i: int)
    requires Settles(arrivals, settle, i)
    ensures 0 <= i < |arrivals| && arrivals[i].Frame?
  {
  }

  /** With a producer that announces only free slots, the test never concludes that a lent
      slot was handed out again. */
  lemma ARingIsNeverHandedOutAgain(slots: set<nat>, steps: seq<Step>, arrivals: seq<Arrival>, settle: int,
                                   polls: seq<Poll>, first: Picture, second: Picture, last: bool)
    requires After(slots, steps).Some? && TestLog(arrivals, settle, polls, last) == Side(steps)
    ensures Conclusion(arrivals, settle, polls, first, second) != HandedOutAgain
  {
    hide Fair, After, Side, TestLog, Held, Again;
    TheRingIsFair(slots, steps);
    TestKeeps(arrivals, settle, polls, last);
  }

  /** A test that passes and yet keeps a slot: while slot 0 is held, giving slot 1 back
      fails, which ends the hold and nothing else. */
  lemma PassWithASlotKept()
    ensures var arrivals, polls := [Frame(0, true)], [Got(Frame(1, false))];
            var log := TestLog(arrivals, 1, polls, true);
            && Conclusion(arrivals, 1, polls, [1, 2], [1, 2]) == Pass
            && log == [Read(0), Read(1), Lost(1), Gave(0)] && Owned(log) == multiset{1}
            && multiset(Gives(log)) != multiset(Reads(log))
  {
    hide Owned, Proper, Reads, Gives, Losses;
    var arrivals, polls := [Frame(0, true)], [Got(Frame(1, false))];
    ThatTest();
    Nothing0();
    var log := TestLog(arrivals, 1, polls, true);
    assert log == [] + [Read(0)] + [Read(1)] + [Lost(1)] + [Gave(0)];
    More([], Read(0));
    More([] + [Read(0)], Read(1));
    More([] + [Read(0)] + [Read(1)], Lost(1));
    More([] + [Read(0)] + [Read(1)] + [Lost(1)], Gave(0));
    NothingVanishes(log);
  }

  lemma ThatTest()
    ensures var arrivals, polls := [Frame(0, true)], [Got(Frame(1, false))];
            && TestLog(arrivals, 1, polls, true) == [Read(0), Read(1), Lost(1), Gave(0)]
            && Conclusion(arrivals, 1, polls, [1, 2], [1, 2]) == Pass
  {
    var arrivals, polls := [Frame(0, true)], [Got(Frame(1, false))];
    NoneHeld(0);
    NoneAnnounced();
    var picture: Picture := [1, 2];
    assert picture[1] != picture[0];
    assert Announced(arrivals) == [0] && Held(arrivals, 1) == 0;
    NextHold(polls, 0, 0);
    assert polls[0..] == polls && polls[1..] == [];
    hide Announced, HoldAnnounced, HoldLog;
    assert HoldAnnounced(polls, 0) == [1] && HoldLog(polls, 0) == [Read(1), Lost(1)];
    assert ConsumeLog(arrivals, 1) == [Read(0)];
  }
}
