/** Four virtual pads driven by full snapshots (spikes/switch-room/pads.py). */
module Pads {
  import opened Common

  // ---- what a pad has --------------------------------------------------------

  /** A control by its Linux event code. */
  datatype Control = Key(code: int) | Axis(code: int)

  datatype Event = Set(pad: nat, control: Control, value: int) | Syn(pad: nat)

  type Snapshot = map<Control, int>

  const PADS := 4

  /** The button codes by name; the page's x is the top button, which Linux calls Y. */
  function ButtonCode(name: string): Option<int> {
    if name == "a" then Some(0x130) else if name == "b" then Some(0x131)
    else if name == "x" then Some(0x134) else if name == "y" then Some(0x133)
    else if name == "l" then Some(0x136) else if name == "r" then Some(0x137)
    else if name == "minus" then Some(0x13a) else if name == "plus" then Some(0x13b)
    else if name == "ls" then Some(0x13d) else if name == "rs" then Some(0x13e)
    else if name == "home" then Some(0x13c) else None
  }

  function AxisCode(name: string): Option<int> {
    if name == "lx" then Some(0x00) else if name == "ly" then Some(0x01)
    else if name == "rx" then Some(0x03) else if name == "ry" then Some(0x04)
    else if name == "zl" then Some(0x02) else if name == "zr" then Some(0x05)
    else if name == "dx" then Some(0x10) else if name == "dy" then Some(0x11) else None
  }

  /** Every control of a pad, in the order a snapshot is written. */
  const CONTROLS: seq<Control> := [
    Key(0x130), Key(0x131), Key(0x134), Key(0x133), Key(0x136), Key(0x137), Key(0x13a), Key(0x13b),
    Key(0x13d), Key(0x13e), Key(0x13c),
    Axis(0x00), Axis(0x01), Axis(0x03), Axis(0x04), Axis(0x02), Axis(0x05), Axis(0x10), Axis(0x11)]

  function Low(c: Control): int {
    if c.Key? || c.code == 0x02 || c.code == 0x05 then 0
    else if c.code == 0x10 || c.code == 0x11 then -1 else -32768
  }

  function High(c: Control): int {
    if c.Key? then 1
    else if c.code == 0x02 || c.code == 0x05 then 255
    else if c.code == 0x10 || c.code == 0x11 then 1 else 32767
  }

  /** Every control has a value its device declares. */
  ghost predicate Whole(s: Snapshot) {
    && (forall c :: c in s <==> c in CONTROLS)
    && (forall c :: c in s ==> Low(c) <= s[c] <= High(c))
  }

  function Empty(): Snapshot {
    map c | c in CONTROLS :: 0
  }

  lemma EmptyIsWhole()
    ensures Whole(Empty())
  {
  }

  /** Where a control is in a snapshot. */
  function Rank(c: Control): int {
    match c
    case Key(code) =>
      if code <= 0x131 then code - 0x130 else if code == 0x134 then 2 else if code == 0x133 then 3
      else if code <= 0x137 then code - 0x132 else if code <= 0x13b then code - 0x134
      else if code == 0x13c then 10 else code - 0x135
    case Axis(code) =>
      if code <= 1 then 11 + code else if code == 3 then 13 else if code == 4 then 14
      else if code == 2 then 15 else if code == 5 then 16 else code + 1
  }

  lemma ControlsAreDistinct(i: nat, j: nat)
    requires i < j < |CONTROLS|
    ensures CONTROLS[i] != CONTROLS[j]
  {
    assert Rank(CONTROLS[i]) == i && Rank(CONTROLS[j]) == j;
  }

  // ---- what the events amount to ---------------------------------------------

  /** A pad as someone who reads its events sees it. */
  function Replay(log: seq<Event>, pad: nat): Snapshot {
    if log == [] then map[]
    else
      var before, last := Replay(log[..|log| - 1], pad), log[|log| - 1];
      if last.Set? && last.pad == pad then before[last.control := last.value] else before
  }

  /** No event repeats a value its reader already has. */
  ghost predicate Minimal(log: seq<Event>) {
    log == [] ||
    var before, last := log[..|log| - 1], log[|log| - 1];
    Minimal(before) && (last.Set? ==> !Shows(Replay(before, last.pad), last.control, last.value))
  }

  predicate Shows(s: Snapshot, c: Control, value: int) {
    c in s && s[c] == value
  }

  lemma OneMore(log: seq<Event>, e: Event, pad: nat)
    ensures Replay(log + [e], pad)
            == if e.Set? && e.pad == pad then Replay(log, pad)[e.control := e.value] else Replay(log, pad)
    ensures Minimal(log + [e])
            <==> Minimal(log) && (e.Set? ==> !Shows(Replay(log, e.pad), e.control, e.value))
  {
    assert (log + [e])[..|log|] == log;
  }

  /** A snapshot on the way from one to another, the first controls done. */
  function Mixed(from: Snapshot, to: Snapshot, n: nat): Snapshot
    requires n <= |CONTROLS| && Whole(to)
  {
    map c | c in from.Keys + (set k | 0 <= k < n :: CONTROLS[k]) :: if c in CONTROLS[..n] then to[c] else from[c]
  }

  lemma NotYet(n: nat)
    requires n < |CONTROLS|
    ensures CONTROLS[n] !in CONTROLS[..n]
    ensures CONTROLS[..n + 1] == CONTROLS[..n] + [CONTROLS[n]]
  {
    forall k | 0 <= k < n
      ensures CONTROLS[k] != CONTROLS[n]
    {
      ControlsAreDistinct(k, n);
    }
  }

  lemma MixedIs(from: Snapshot, to: Snapshot, n: nat)
    requires n <= |CONTROLS| && Whole(to)
    ensures forall c :: c in Mixed(from, to, n) <==> c in from || c in CONTROLS[..n]
    ensures forall c :: c in Mixed(from, to, n) ==> c in to || c in from
    ensures forall c :: c in Mixed(from, to, n) ==>
              Mixed(from, to, n)[c] == if c in CONTROLS[..n] then to[c] else from[c]
  {
  }

  /** Writing the next control, if its value changed, goes one further. */
  lemma MixedOneMore(from: Snapshot, to: Snapshot, n: nat)
    requires n < |CONTROLS| && Whole(to)
    ensures var c := CONTROLS[n];
            && Mixed(from, to, n + 1) == Mixed(from, to, n)[c := to[c]]
            && (Shows(Mixed(from, to, n), c, to[c]) <==> Shows(from, c, to[c]))
            && (Shows(from, c, to[c]) ==> Mixed(from, to, n + 1) == Mixed(from, to, n))
  {
    hide Mixed, Whole, CONTROLS;
    WholeKeys(to);
    NotYet(n);
    MixedIs(from, to, n);
    MixedIs(from, to, n + 1);
  }

  lemma MixedEnds(from: Snapshot, to: Snapshot)
    requires Whole(to) && forall c :: c in from ==> c in CONTROLS
    ensures Mixed(from, to, 0) == from && Mixed(from, to, |CONTROLS|) == to
  {
    assert CONTROLS[..|CONTROLS|] == CONTROLS;
    assert forall c :: c in CONTROLS ==> exists k :: 0 <= k < |CONTROLS| && CONTROLS[k] == c;
  }

  lemma WholeKeys(s: Snapshot)
    requires Whole(s)
    ensures forall c :: c in s <==> c in CONTROLS
  {
  }

  /** The events that take a reader from one snapshot to another, over the first
      controls. */
  function Changes(pad: nat, from: Snapshot, to: Snapshot, n: nat): seq<Event>
    requires n <= |CONTROLS| && Whole(to)
  {
    if n == 0 then []
    else
      var c := CONTROLS[n - 1];
      Changes(pad, from, to, n - 1) + (if Shows(from, c, to[c]) then [] else [Set(pad, c, to[c])])
  }

  lemma {:induction false} ChangesTell(log: seq<Event>, pad: nat, from: Snapshot, to: Snapshot, n: nat, other: nat)
    requires n <= |CONTROLS| && Whole(to) && (forall c :: c in from ==> c in CONTROLS)
    requires Minimal(log) && Replay(log, pad) == from
    ensures Minimal(log + Changes(pad, from, to, n))
    ensures Replay(log + Changes(pad, from, to, n), pad) == Mixed(from, to, n)
    ensures other != pad ==> Replay(log + Changes(pad, from, to, n), other) == Replay(log, other)
    ensures forall k :: 0 <= k < |Changes(pad, from, to, n)| ==> Changes(pad, from, to, n)[k].pad == pad
  {
    hide Mixed, Replay, Minimal, Whole, CONTROLS;
    WholeKeys(to);
    if n == 0 {
      MixedEnds(from, to);
      assert log + [] == log;
    } else {
      ChangesTell(log, pad, from, to, n - 1, other);
      MixedOneMore(from, to, n - 1);
      var c, early := CONTROLS[n - 1], Changes(pad, from, to, n - 1);
      if Shows(from, c, to[c]) {
        assert early + [] == early;
      } else {
        OneMore(log + early, Set(pad, c, to[c]), pad);
        OneMore(log + early, Set(pad, c, to[c]), other);
        assert log + (early + [Set(pad, c, to[c])]) == log + early + [Set(pad, c, to[c])];
      }
    }
  }

  /** A whole change and its report: the reader of the pad sees the new snapshot, the
      others see nothing. */
  lemma SnapshotTold(log: seq<Event>, pad: nat, from: Snapshot, to: Snapshot, other: nat)
    requires Whole(to) && (forall c :: c in from ==> c in CONTROLS)
    requires Minimal(log) && Replay(log, pad) == from
    ensures var after := log + Changes(pad, from, to, |CONTROLS|) + [Syn(pad)];
            && Minimal(after) && Replay(after, pad) == to
            && (other != pad ==> Replay(after, other) == Replay(log, other))
            && forall k :: |log| <= k < |after| ==> after[k].pad == pad
  {
    hide Mixed, Replay, Minimal, Whole, Changes, CONTROLS;
    ChangesTell(log, pad, from, to, |CONTROLS|, other);
    MixedEnds(from, to);
    OneMore(log + Changes(pad, from, to, |CONTROLS|), Syn(pad), pad);
    OneMore(log + Changes(pad, from, to, |CONTROLS|), Syn(pad), other);
  }

  lemma NoChanges(pad: nat, from: Snapshot, to: Snapshot)
    requires Whole(to)
    ensures Changes(pad, from, to, 0) == []
  {
  }

  lemma OneChange(pad: nat, from: Snapshot, to: Snapshot, n: nat)
    requires n < |CONTROLS| && Whole(to)
    ensures var c := CONTROLS[n];
            Changes(pad, from, to, n + 1)
            == Changes(pad, from, to, n) + (if Shows(from, c, to[c]) then [] else [Set(pad, c, to[c])])
  {
  }

  // ---- commands --------------------------------------------------------------

  /** A datagram's content, as the JSON reader gives it; a repeated name keeps its
      last value. */
  datatype Json = Null | Bool(b: bool) | Int(n: int) | Real(r: real) | Str(s: string) | Arr(items: seq<Json>)
                | Obj(fields: map<string, Json>)

  /** A datagram as the JSON reader leaves it: its content, a text that is not JSON, or one
      nested past the recursion the reader is allowed. */
  datatype Raw = Command(value: Json) | Unreadable | TooDeep

  /** What becomes of a command: applied to a pad, refused, or the end of the helper. */
  datatype Answer = Accepted(pad: nat, snapshot: Snapshot) | Rejected | Fatal

  function Field(command: map<string, Json>, name: string, missing: Json): Json {
    if name in command then command[name] else missing
  }

  /** True and False count as 1 and 0. */
  function AsInt(j: Json): Option<int> {
    match j
    case Int(n) => Some(n)
    case Bool(b) => Some(if b then 1 else 0)
    case _ => None
  }

  /** What a loop over a value goes through; a text gives its characters and an object
      its names. None when there is nothing to loop over. */
  predicate Iterable(j: Json) {
    j.Arr? || j.Str? || j.Obj?
  }

  predicate Holds(j: Json, item: Json)
    requires Iterable(j)
  {
    match j
    case Arr(items) => item in items
    case Str(s) => item.Str? && |item.s| == 1 && item.s[0] in s
    case Obj(fields) => item.Str? && item.s in fields
    case _ => false
  }

  predicate IsButton(j: Json) {
    j.Str? && ButtonCode(j.s).Some?
  }

  ghost predicate ButtonsOk(j: Json) {
    Iterable(j) && forall item :: Holds(j, item) ==> IsButton(item)
  }

  ghost predicate AxesOk(fields: map<string, Json>) {
    forall name :: name in fields ==> AxisCode(name).Some? && AsInt(fields[name]).Some?
  }

  function Clamp(low: int, high: int, value: int): (r: int)
    requires low <= high
    ensures low <= r <= high
    ensures low <= value <= high ==> r == value
    ensures value < low ==> r == low
    ensures value > high ==> r == high
  {
    if value < low then low else if value > high then high else value
  }

  /** The first check lets a fraction from 1 to 5 through; it is refused only when its
      snapshot comes to be applied. */
  predicate PlayerPasses(player: Json) {
    PadOf(player).Some? || (player.Real? && 1.0 <= player.r < 5.0)
  }

  /** Which pad a command is for: a whole number from 1 to 4, or True. */
  function PadOf(player: Json): Option<nat> {
    if AsInt(player).Some? && 1 <= AsInt(player).value <= PADS then Some(AsInt(player).value - 1) else None
  }

  /** What a snapshot says of every control, from the names of a command. */
  ghost predicate Means(snapshot: Snapshot, buttons: Json, axes: map<string, Json>)
    requires ButtonsOk(buttons) && AxesOk(axes)
  {
    && Whole(snapshot)
    && (forall name :: ButtonCode(name).Some? ==>
          snapshot[ButtonKey(name)] == if Holds(buttons, Str(name)) then 1 else 0)
    && (forall name :: AxisCode(name).Some? ==>
          snapshot[AxisKey(name)] == if name in axes then Limited(name, AsInt(axes[name]).value) else 0)
  }

  function ButtonKey(name: string): (c: Control)
    requires ButtonCode(name).Some?
    ensures c in CONTROLS && c.Key?
  {
    Key(ButtonCode(name).value)
  }

  function AxisKey(name: string): (c: Control)
    requires AxisCode(name).Some?
    ensures c in CONTROLS && c.Axis? && Low(c) <= 0 <= High(c)
  {
    Axis(AxisCode(name).value)
  }

  /** A value brought into the range its axis declares. */
  function Limited(name: string, value: int): (r: int)
    requires AxisCode(name).Some?
    ensures Low(AxisKey(name)) <= r <= High(AxisKey(name))
  {
    Clamp(Low(AxisKey(name)), High(AxisKey(name)), value)
  }

  /** The ranges of the eight axes. */
  lemma RangesOfAxes(name: string, value: int)
    requires AxisCode(name).Some?
    ensures name == "zl" || name == "zr" ==>
              Limited(name, value) == if value < 0 then 0 else if value > 255 then 255 else value
    ensures name == "dx" || name == "dy" ==>
              Limited(name, value) == if value < 0 then -1 else if value > 0 then 1 else 0
    ensures name == "lx" || name == "ly" || name == "rx" || name == "ry" ==>
              Limited(name, value) == if value < -32768 then -32768 else if value > 32767 then 32767 else value
    ensures name in {"zl", "zr", "dx", "dy", "lx", "ly", "rx", "ry"}
  {
  }

  lemma NamesAreDistinct(a: string, b: string)
    ensures ButtonCode(a).Some? && ButtonCode(b).Some? && ButtonKey(a) == ButtonKey(b) ==> a == b
    ensures AxisCode(a).Some? && AxisCode(b).Some? && AxisKey(a) == AxisKey(b) ==> a == b
  {
  }

  /** The controls of a pad are those that have a name: eleven buttons and eight axes. */
  lemma EveryControlHasAName(c: Control) returns (name: string)
    requires c in CONTROLS
    ensures if c.Key? then ButtonCode(name) == Some(c.code) else AxisCode(name) == Some(c.code)
    ensures name in (if c.Key? then {"a", "b", "x", "y", "l", "r", "minus", "plus", "ls", "rs", "home"}
                     else {"lx", "ly", "rx", "ry", "zl", "zr", "dx", "dy"})
  {
    var names := ["a", "b", "x", "y", "l", "r", "minus", "plus", "ls", "rs", "home",
                  "lx", "ly", "rx", "ry", "zl", "zr", "dx", "dy"];
    var i :| 0 <= i < |CONTROLS| && CONTROLS[i] == c;
    name := names[i];
  }

  /** The parts of a command, when it has them. */
  predicate Addressed(raw: Raw) {
    raw.Command? && raw.value.Obj? && "player" in raw.value.fields && PlayerPasses(raw.value.fields["player"])
  }

  function Buttons(raw: Raw): Json
    requires raw.Command? && raw.value.Obj?
  {
    Field(raw.value.fields, "buttons", Arr([]))
  }

  function Axes(raw: Raw): Json
    requires raw.Command? && raw.value.Obj?
  {
    Field(raw.value.fields, "axes", Obj(map[]))
  }

  /** A command is applied exactly when everything in it is known; one nested too deeply
      for the JSON reader, or with anything but an object in place of the axes, raises what
      is not caught, and ends the helper. */
  ghost predicate Answers(raw: Raw, answer: Answer) {
    && (answer.Fatal? <==>
          raw.TooDeep?
          || (Addressed(raw) && ButtonsOk(Buttons(raw)) && !Axes(raw).Obj?))
    && (answer.Accepted? <==>
          Addressed(raw) && PadOf(raw.value.fields["player"]).Some?
          && ButtonsOk(Buttons(raw)) && Axes(raw).Obj? && AxesOk(Axes(raw).fields))
    && (answer.Accepted? ==>
          && Some(answer.pad) == PadOf(raw.value.fields["player"])
          && Means(answer.snapshot, Buttons(raw), Axes(raw).fields))
  }

  /** Whom a command that is applied is for, and what it leaves at rest: a control it says
      nothing of, all of them when it has neither buttons nor axes. */
  lemma WhomACommandIsFor(raw: Raw, answer: Answer, name: string)
    requires Answers(raw, answer) && answer.Accepted?
    ensures answer.pad < 4
    ensures var player := raw.value.fields["player"];
            player == Int(answer.pad + 1) || (player == Bool(true) && answer.pad == 0)
    ensures "buttons" !in raw.value.fields && ButtonCode(name).Some? ==> answer.snapshot[ButtonKey(name)] == 0
    ensures "axes" !in raw.value.fields && AxisCode(name).Some? ==> answer.snapshot[AxisKey(name)] == 0
  {
    hide CONTROLS, Low, High, ButtonCode, AxisCode, Limited;
  }

  /** One that is well formed and for nobody, by its number: refused, whatever the number, when
      it is none of one to four nor true. */
  lemma WhoIsThere(fields: map<string, Json>, answer: Answer)
    requires "player" in fields && "buttons" !in fields && "axes" !in fields && Answers(Command(Obj(fields)), answer)
    ensures answer.Accepted? <==> fields["player"] in {Int(1), Int(2), Int(3), Int(4), Bool(true)}
    ensures !answer.Accepted? ==> answer.Rejected?
  {
    assert Buttons(Command(Obj(fields))) == Arr([]) && Axes(Command(Obj(fields))) == Obj(map[]);
  }

  /** The buttons can be a text, which presses its letters and no longer name. */
  lemma ButtonsAsLetters(fields: map<string, Json>, text: string, answer: Answer)
    requires "player" in fields && fields["player"] == Int(1) && "axes" !in fields
    requires "buttons" in fields && fields["buttons"] == Str(text) && Answers(Command(Obj(fields)), answer)
    ensures answer.Accepted? <==> forall c :: c in text ==> ButtonCode([c]).Some?
    ensures answer.Accepted? ==>
              forall name :: ButtonCode(name).Some? ==>
                answer.snapshot[ButtonKey(name)] == if |name| == 1 && name[0] in text then 1 else 0
  {
    hide CONTROLS, ButtonCode, AxisCode, Whole, ButtonKey, AxisKey;
    var raw := Command(Obj(fields));
    assert Buttons(raw) == Str(text) && Axes(raw) == Obj(map[]);
    forall c | c in text
      ensures Holds(Str(text), Str([c]))
    {
    }
    forall item | Holds(Str(text), item)
      ensures item == Str([item.s[0]])
    {
      assert item.s == [item.s[0]];
    }
    assert ButtonsOk(Str(text)) <==> forall c :: c in text ==> ButtonCode([c]).Some? by {
      if forall c :: c in text ==> ButtonCode([c]).Some? {
        assert forall item :: Holds(Str(text), item) ==> IsButton(item);
      } else {
        var c :| c in text && ButtonCode([c]).None?;
        assert Holds(Str(text), Str([c])) && !IsButton(Str([c]));
      }
    }
  }

  method Items(j: Json) returns (items: seq<Json>)
    requires Iterable(j)
    ensures forall item :: item in items <==> Holds(j, item)
  {
    match j
    case Arr(all) =>
      items := all;
    case Str(s) =>
      items := seq(|s|, i requires 0 <= i < |s| => Str([s[i]]));
      forall item | Holds(j, item)
        ensures item in items
      {
        var i :| 0 <= i < |s| && s[i] == item.s[0];
        assert item.s == [s[i]] && items[i] == item;
      }
    case Obj(fields) =>
      items := [];
      var left := fields.Keys;
      while left != {}
        invariant left <= fields.Keys
        invariant forall item :: item in items <==> item.Str? && item.s in fields && item.s !in left
        decreases |left|
      {
        var name :| name in left;
        items, left := items + [Str(name)], left - {name};
      }
    case _ =>
  }

  /** The buttons among some items down, everything else at rest. */
  ghost predicate Down(s: Snapshot, items: seq<Json>) {
    && Whole(s)
    && (forall name :: ButtonCode(name).Some? ==> s[ButtonKey(name)] == if Str(name) in items then 1 else 0)
    && (forall name :: AxisCode(name).Some? ==> s[AxisKey(name)] == 0)
  }

  lemma PressOne(s: Snapshot, items: seq<Json>, name: string)
    requires Down(s, items) && ButtonCode(name).Some?
    ensures Down(s[ButtonKey(name) := 1], items + [Str(name)])
  {
    hide CONTROLS, ButtonCode, AxisCode, ButtonKey, AxisKey;
    var after := s[ButtonKey(name) := 1];
    WholePut(s, ButtonKey(name), 1);
    forall other | ButtonCode(other).Some?
      ensures after[ButtonKey(other)] == if Str(other) in items + [Str(name)] then 1 else 0
    {
      NamesAreDistinct(other, name);
    }
  }

  lemma WholePut(s: Snapshot, c: Control, value: int)
    requires Whole(s) && c in CONTROLS && Low(c) <= value <= High(c)
    ensures Whole(s[c := value])
  {
  }

  lemma NothingDown()
    ensures Down(Empty(), [])
  {
    hide ButtonCode, AxisCode, ButtonKey, AxisKey;
    EmptyIsWhole();
  }

  /** The buttons of a command down; none if a name is not a button's. */
  method Pressed(j: Json) returns (snapshot: Option<Snapshot>)
    requires Iterable(j)
    ensures snapshot.Some? <==> ButtonsOk(j)
    ensures snapshot.Some? ==> exists items :: Down(snapshot.value, items) && Same(items, j)
  {
    hide CONTROLS, Holds, ButtonCode, AxisCode, Down;
    var items := Items(j);
    var desired := Empty();
    NothingDown();
    var k := 0;
    while k < |items|
      invariant 0 <= k <= |items| && Down(desired, items[..k])
      invariant forall n :: 0 <= n < k ==> IsButton(items[n])
    {
      if !IsButton(items[k]) {
        assert items[k] in items;
        return None;
      }
      PressOne(desired, items[..k], items[k].s);
      assert items[..k + 1] == items[..k] + [items[k]];
      desired := desired[ButtonKey(items[k].s) := 1];
      k := k + 1;
    }
    assert items[..k] == items && Same(items, j);
    return Some(desired);
  }

  ghost predicate Same(items: seq<Json>, j: Json)
    requires Iterable(j)
  {
    forall item :: item in items <==> Holds(j, item)
  }

  /** Some axes of a command on top of its buttons. */
  ghost predicate Moved(s: Snapshot, items: seq<Json>, axes: map<string, Json>, left: set<string>) {
    && Whole(s)
    && (forall name :: ButtonCode(name).Some? ==> s[ButtonKey(name)] == if Str(name) in items then 1 else 0)
    && (forall name :: AxisCode(name).Some? ==>
          s[AxisKey(name)]
          == if name in axes && name !in left && AsInt(axes[name]).Some?
             then Limited(name, AsInt(axes[name]).value) else 0)
  }

  lemma MoveOne(s: Snapshot, items: seq<Json>, axes: map<string, Json>, left: set<string>, name: string)
    requires Moved(s, items, axes, left) && name in left && name in axes
    requires AxisCode(name).Some? && AsInt(axes[name]).Some?
    ensures Moved(s[AxisKey(name) := Limited(name, AsInt(axes[name]).value)], items, axes, left - {name})
  {
    hide CONTROLS, ButtonCode, AxisCode, ButtonKey, AxisKey, Limited;
    var value := Limited(name, AsInt(axes[name]).value);
    var after := s[AxisKey(name) := value];
    WholePut(s, AxisKey(name), value);
    forall other | AxisCode(other).Some?
      ensures after[AxisKey(other)]
              == if other in axes && other !in left - {name} && AsInt(axes[other]).Some?
                 then Limited(other, AsInt(axes[other]).value) else 0
    {
      NamesAreDistinct(other, name);
    }
  }

  lemma NothingMoved(s: Snapshot, items: seq<Json>, axes: map<string, Json>)
    requires Down(s, items)
    ensures Moved(s, items, axes, axes.Keys)
  {
    hide CONTROLS, ButtonCode, AxisCode, ButtonKey, AxisKey, Limited;
  }

  lemma AllMoved(s: Snapshot, items: seq<Json>, buttons: Json, axes: map<string, Json>)
    requires Moved(s, items, axes, {}) && ButtonsOk(buttons) && AxesOk(axes) && Same(items, buttons)
    ensures Means(s, buttons, axes)
  {
    hide CONTROLS, ButtonCode, AxisCode, ButtonKey, AxisKey, Limited, Holds;
  }

  /** The axes of a command, each brought into its range; none if one is unknown or not
      a whole number. */
  method Tilted(pressed: Snapshot, ghost items: seq<Json>, axes: map<string, Json>) returns (snapshot: Option<Snapshot>)
    requires Down(pressed, items)
    ensures snapshot.Some? <==> AxesOk(axes)
    ensures snapshot.Some? ==> Moved(snapshot.value, items, axes, {})
  {
    hide CONTROLS, ButtonCode, AxisCode, Moved, Down, Limited;
    var desired, left := pressed, axes.Keys;
    NothingMoved(pressed, items, axes);
    while left != {}
      invariant left <= axes.Keys && Moved(desired, items, axes, left)
      invariant forall name :: name in axes && name !in left ==> AxisCode(name).Some? && AsInt(axes[name]).Some?
      decreases |left|
    {
      var name :| name in left;
      if AsInt(axes[name]).None? || AxisCode(name).None? {
        return None;
      }
      MoveOne(desired, items, axes, left, name);
      desired := desired[AxisKey(name) := Limited(name, AsInt(axes[name]).value)];
      left := left - {name};
    }
    return Some(desired);
  }

  /** Reads a command, from its player to its last axis. */
  method Parse(raw: Raw) returns (answer: Answer)
    ensures Answers(raw, answer)
  {
    hide CONTROLS, ButtonCode, AxisCode, Moved, Down, Means, Same;
    if raw.TooDeep? {
      return Fatal;
    }
    if !Addressed(raw) {
      return Rejected;
    }
    var buttons, axes := Buttons(raw), Axes(raw);
    if !Iterable(buttons) {
      return Rejected;
    }
    var pressed := Pressed(buttons);
    if pressed.None? {
      return Rejected;
    }
    if !axes.Obj? {
      return Fatal;
    }
    ghost var items :| Down(pressed.value, items) && Same(items, buttons);
    var snapshot := Tilted(pressed.value, items, axes.fields);
    if snapshot.None? || PadOf(raw.value.fields["player"]).None? {
      return Rejected;
    }
    AllMoved(snapshot.value, items, buttons, axes.fields);
    return Accepted(PadOf(raw.value.fields["player"]).value, snapshot.value);
  }

  // ---- the helper ------------------------------------------------------------

  /** The four pads: what they have, which are driven and since when, and all they wrote. */
  datatype State = State(current: seq<Snapshot>, active: seq<bool>, last: seq<real>, log: seq<Event>)

  /** A pad brought to a snapshot. */
  ghost function Applied(s: State, i: nat, desired: Snapshot): State
    requires i < |s.current| && Whole(desired)
  {
    s.(current := s.current[i := desired],
       log := s.log + Changes(i, s.current[i], desired, |CONTROLS|) + [Syn(i)])
  }

  ghost function Rested(s: State, i: nat): State
    requires i < |s.current| && i < |s.active|
  {
    EmptyIsWhole();
    var s := Applied(s, i, Empty());
    s.(active := s.active[i := false])
  }

  ghost predicate Four(s: State) {
    |s.current| == |s.active| == |s.last| == PADS
  }

  /** The first pads at rest. */
  ghost function AllRested(s: State, n: nat): (t: State)
    requires Four(s) && n <= PADS
    ensures Four(t)
  {
    if n == 0 then s else Rested(AllRested(s, n - 1), n - 1)
  }

  /** The first pads that were not commanded for more than a second at rest. */
  ghost function Lapsed(s: State, clock: seq<real>, n: nat): (t: State)
    requires Four(s) && |clock| == PADS && n <= PADS
    ensures Four(t) && t.last == s.last
  {
    if n == 0 then s
    else
      var s := Lapsed(s, clock, n - 1);
      if s.active[n - 1] && clock[n - 1] - s.last[n - 1] > 1.0 then Rested(s, n - 1) else s
  }

  lemma LapsedStep(s: State, clock: seq<real>, n: nat)
    requires Four(s) && |clock| == PADS && n < PADS
    ensures Lapsed(s, clock, 0) == s
    ensures var before := Lapsed(s, clock, n);
            Lapsed(s, clock, n + 1)
            == if before.active[n] && clock[n] - before.last[n] > 1.0 then Rested(before, n) else before
  {
  }

  /** A command answered at an instant. */
  ghost function Served(s: State, answer: Answer, now: real): (t: State)
    requires Four(s) && (answer.Accepted? ==> answer.pad < PADS && Whole(answer.snapshot))
    ensures Four(t)
  {
    match answer
    case Accepted(i, snapshot) =>
      var s := Applied(s, i, snapshot);
      s.(active := s.active[i := true], last := s.last[i := now])
    case Rejected => s
    case Fatal => AllRested(s, PADS)
  }

  /** A moment of the helper's life: a datagram with its answer, or an expiry pass. */
  datatype Moment = Datagram(raw: Raw, answer: Answer, now: real) | Pass(clock: seq<real>)

  ghost predicate MomentOk(m: Moment) {
    match m
    case Datagram(raw, answer, _) =>
      Answers(raw, answer) && (answer.Accepted? ==> answer.pad < PADS && Whole(answer.snapshot))
    case Pass(clock) => |clock| == PADS
  }

  ghost function Passed(s: State, m: Moment): (t: State)
    requires Four(s) && MomentOk(m)
    ensures Four(t)
  {
    match m
    case Datagram(_, answer, now) => Served(s, answer, now)
    case Pass(clock) => Lapsed(s, clock, PADS)
  }

  ghost function Lived(s: State, moments: seq<Moment>): (t: State)
    requires Four(s) && forall m :: m in moments ==> MomentOk(m)
    ensures Four(t)
  {
    if moments == [] then s
    else
      assert moments[|moments| - 1] in moments;
      Passed(Lived(s, moments[..|moments| - 1]), moments[|moments| - 1])
  }

  ghost predicate EndsIt(m: Moment) {
    m.Datagram? && m.answer.Fatal?
  }

  /** Everything that comes to the helper, in order: the datagrams of each turn, then its
      pass. */
  datatype Due = Message(raw: Raw, now: real) | Expiry(clock: seq<real>)

  function Messages(commands: seq<(Raw, real)>): seq<Due> {
    if commands == [] then []
    else
      var (raw, now) := commands[|commands| - 1];
      Messages(commands[..|commands| - 1]) + [Message(raw, now)]
  }

  function Agenda(turns: seq<Turn>): seq<Due> {
    if turns == [] then []
    else
      var last := turns[|turns| - 1];
      Agenda(turns[..|turns| - 1]) + Messages(last.commands) + [Expiry(last.clock)]
  }

  ghost predicate Meets(m: Moment, due: Due) {
    match due
    case Message(raw, now) => m.Datagram? && m.raw == raw && m.now == now
    case Expiry(clock) => m == Pass(clock)
  }

  /** The moments are those that were due, from the first on, all of them unless one ended the
      helper, and then none after that one. */
  ghost predicate Course(moments: seq<Moment>, agenda: seq<Due>) {
    && |moments| <= |agenda|
    && (forall k :: 0 <= k < |moments| ==> MomentOk(moments[k]) && Meets(moments[k], agenda[k]))
    && (forall k :: 0 <= k < |moments| - 1 ==> !EndsIt(moments[k]))
    && (|moments| < |agenda| ==> moments != [] && EndsIt(moments[|moments| - 1]))
  }

  class Helper {
    var current: seq<Snapshot>
    var active: seq<bool>
    var last: seq<real>
    var log: seq<Event>

    ghost function Value(): State
      reads this
    {
      State(current, active, last, log)
    }

    /** Each pad's reader sees its current snapshot, and was told nothing twice. */
    ghost predicate Coherent()
      reads this
    {
      && |current| == |active| == |last| == PADS && Minimal(log)
      && (forall i :: 0 <= i < PADS ==> Replay(log, i) == current[i])
      && (forall i, c :: 0 <= i < PADS && c in current[i] ==> c in CONTROLS)
    }

    /** Besides, every snapshot is whole, and a pad nobody drives is at rest. */
    ghost predicate Valid()
      reads this
    {
      && Coherent()
      && (forall i :: 0 <= i < PADS ==> Whole(current[i]))
      && (forall i :: 0 <= i < PADS && !active[i] ==> current[i] == Empty())
    }

    /** Only one pad was written to, and its events end with a report. */
    twostate predicate Wrote(i: nat)
      reads this
    {
      && old(|log|) < |log| && log[..old(|log|)] == old(log) && log[|log| - 1] == Syn(i)
      && forall k :: old(|log|) <= k < |log| ==> log[k].pad == i
    }

    /** Tells a pad's reader what changed. */
    method Apply(i: nat, desired: Snapshot)
      requires Coherent() && i < PADS && Whole(desired)
      modifies `current, `log
      ensures Coherent() && current == old(current)[i := desired] && Wrote(i)
      ensures log == old(log) + Changes(i, old(current[i]), desired, |CONTROLS|) + [Syn(i)]
      ensures Value() == Applied(old(Value()), i, desired)
    {
      hide Changes, Whole, Replay, Minimal, CONTROLS;
      var from := current[i];
      WholeKeys(desired);
      NoChanges(i, from, desired);
      var k := 0;
      while k < |CONTROLS|
        invariant 0 <= k <= |CONTROLS| && current == old(current)
        invariant log == old(log) + Changes(i, from, desired, k)
      {
        var c := CONTROLS[k];
        OneChange(i, from, desired, k);
        if !Shows(current[i], c, desired[c]) {
          log := log + [Set(i, c, desired[c])];
        }
        k := k + 1;
      }
      log := log + [Syn(i)];
      current := current[i := desired];
      SnapshotTold(old(log), i, from, desired, i);
      forall j | 0 <= j < PADS
        ensures Replay(log, j) == current[j]
      {
        SnapshotTold(old(log), i, from, desired, j);
      }
      assert log[..old(|log|)] == old(log);
    }

    method Neutral(i: nat)
      requires Coherent() && i < PADS
      modifies `current, `log, `active
      ensures Coherent() && Wrote(i)
      ensures current == old(current)[i := Empty()] && active == old(active)[i := false]
      ensures Value() == Rested(old(Value()), i)
    {
      EmptyIsWhole();
      Apply(i, Empty());
      active := active[i := false];
    }

    /** Four pads at rest. */
    constructor ()
      ensures Valid() && active == [false, false, false, false]
      ensures current == [Empty(), Empty(), Empty(), Empty()]
    {
      current, active := [map[], map[], map[], map[]], [false, false, false, false];
      last, log := [0.0, 0.0, 0.0, 0.0], [];
      new;
      for i := 0 to PADS
        invariant Coherent() && active == [false, false, false, false]
        invariant forall j :: 0 <= j < i ==> current[j] == Empty()
      {
        Neutral(i);
      }
      EmptyIsWhole();
    }

    /** Every exit leaves the four pads at rest. */
    method Close()
      requires Coherent()
      modifies this
      ensures Valid() && forall i :: 0 <= i < PADS ==> current[i] == Empty() && !active[i]
      ensures Value() == AllRested(old(Value()), PADS)
    {
      hide Applied, Rested;
      for i := 0 to PADS
        invariant Coherent() && Value() == AllRested(old(Value()), i)
        invariant forall j :: 0 <= j < i ==> current[j] == Empty() && !active[j]
      {
        Neutral(i);
      }
      EmptyIsWhole();
    }

    /** Pads that were not commanded for more than a second come to rest. After the
        pass, every active pad was commanded within the second before it was looked
        at; `clock` has the four readings. */
    method Expire(clock: seq<real>)
      requires Valid() && |clock| == PADS
      modifies this
      ensures Valid() && last == old(last)
      ensures forall i :: 0 <= i < PADS ==>
                if old(active[i]) && clock[i] - last[i] > 1.0 then !active[i] && current[i] == Empty()
                else active[i] == old(active[i]) && current[i] == old(current[i])
      ensures forall i :: 0 <= i < PADS && active[i] ==> clock[i] - last[i] <= 1.0
      ensures Value() == Lapsed(old(Value()), clock, PADS)
    {
      hide Applied, Rested, Lapsed, Whole, Minimal, Replay, CONTROLS;
      LapsedStep(Value(), clock, 0);
      EmptyIsWhole();
      for i := 0 to PADS
        invariant Valid() && last == old(last) && Value() == Lapsed(old(Value()), clock, i)
        invariant forall j :: i <= j < PADS ==> active[j] == old(active[j]) && current[j] == old(current[j])
        invariant forall j :: 0 <= j < i ==>
            if old(active[j]) && clock[j] - last[j] > 1.0 then !active[j] && current[j] == Empty()
            else active[j] == old(active[j]) && current[j] == old(current[j])
      {
        LapsedStep(old(Value()), clock, i);
        if active[i] && clock[i] - last[i] > 1.0 {
          Neutral(i);
        }
      }
    }

    /** One datagram. A refused command changes nothing, not even an event; an applied
        one changes its own pad only; an unreadable one ends the helper with every pad
        at rest. */
    method Handle(raw: Raw, now: real) returns (answer: Answer)
      requires Valid()
      modifies this
      ensures Valid() && Answers(raw, answer)
      ensures answer.Accepted? ==>
                && answer.pad < PADS && current == old(current)[answer.pad := answer.snapshot]
                && active == old(active)[answer.pad := true] && last == old(last)[answer.pad := now]
                && Wrote(answer.pad)
      ensures answer.Rejected? ==>
                current == old(current) && active == old(active) && last == old(last) && log == old(log)
      ensures answer.Fatal? ==> forall i :: 0 <= i < PADS ==> current[i] == Empty() && !active[i]
      ensures answer.Accepted? ==> Whole(answer.snapshot)
      ensures Value() == Served(old(Value()), answer, now)
    {
      hide Minimal, Replay, Applied, AllRested;
      answer := Parse(raw);
      match answer
      case Accepted(i, snapshot) =>
        Apply(i, snapshot);
        active, last := active[i := true], last[i := now];
      case Rejected =>
      case Fatal => Close();
    }

    /** The whole life of the helper, whichever datagrams come and whenever it ends: every
        datagram is answered and every pass made, in order, unless one ends it; and it leaves
        the four pads at rest, once, each reader seeing so. */
    method Serve(turns: seq<Turn>) returns (ghost moments: seq<Moment>)
      requires Valid() && forall t :: 0 <= t < |turns| ==> |turns[t].clock| == PADS
      modifies this
      ensures Valid()
      ensures forall i :: 0 <= i < PADS ==> current[i] == Empty() && !active[i] && Replay(log, i) == Empty()
      ensures Course(moments, Agenda(turns)) && (forall m :: m in moments ==> MomentOk(m))
      ensures Value() == if moments != [] && EndsIt(moments[|moments| - 1]) then Lived(old(Value()), moments)
                         else AllRested(Lived(old(Value()), moments), PADS)
    {
      hide Minimal, Answers, Replay, Agenda, Messages, Served, Lapsed, AllRested, Whole, Lived, MomentOk;
      var t, running := 0, true;
      moments := [];
      NothingDue();
      assert turns[..0] == [];
      while t < |turns| && running
        invariant 0 <= t <= |turns| && Valid() && Going(old(Value()), moments, Agenda(turns), Value())
        invariant if running then |moments| == |Agenda(turns[..t])| && NoneEnds(moments)
                  else AtRest() && moments != [] && EndsIt(moments[|moments| - 1]) && NoneEnds(moments[..|moments| - 1])
      {
        var c := 0;
        ghost var begun := Agenda(turns[..t]);
        TurnIsDue(turns, t, 0);
        while c < |turns[t].commands| && running
          invariant 0 <= c <= |turns[t].commands| && Valid() && Going(old(Value()), moments, Agenda(turns), Value())
          invariant if running then |moments| == |begun| + c && NoneEnds(moments)
                    else AtRest() && moments != [] && EndsIt(moments[|moments| - 1])
                         && NoneEnds(moments[..|moments| - 1])
        {
          TurnIsDue(turns, t, c);
          ghost var before := Value();
          var answer := Handle(turns[t].commands[c].0, turns[t].commands[c].1);
          ghost var m := Datagram(turns[t].commands[c].0, answer, turns[t].commands[c].1);
          DatagramOk(m);
          OneMoreMoment(old(Value()), moments, Agenda(turns), before, m);
          moments := moments + [m];
          running := !answer.Fatal?;
          c := c + 1;
        }
        if running {
          TurnIsDue(turns, t, c);
          ghost var before := Value();
          Expire(turns[t].clock);
          PassOk(turns[t].clock);
          OneMoreMoment(old(Value()), moments, Agenda(turns), before, Pass(turns[t].clock));
          moments := moments + [Pass(turns[t].clock)];
        }
        t := t + 1;
      }
      assert turns[..|turns|] == turns;
      if running {
        Close();
      }
    }

    ghost predicate AtRest()
      reads this
    {
      |current| == |active| == PADS && forall i :: 0 <= i < PADS ==> current[i] == Empty() && !active[i]
    }
  }

  ghost predicate NoneEnds(moments: seq<Moment>) {
    forall k :: 0 <= k < |moments| ==> !EndsIt(moments[k])
  }

  /** The moments so far are the first that were due, and the pads are where they lead. */
  ghost predicate Going(start: State, moments: seq<Moment>, agenda: seq<Due>, now: State) {
    && Four(start) && (forall m :: m in moments ==> MomentOk(m)) && |moments| <= |agenda|
    && (forall k :: 0 <= k < |moments| ==> MomentOk(moments[k]) && Meets(moments[k], agenda[k]))
    && now == Lived(start, moments)
  }

  lemma NothingDue()
    ensures Agenda([]) == [] && forall s :: Four(s) ==> Lived(s, []) == s
  {
  }

  /** Where the messages and the pass of a turn are in the agenda. */
  lemma TurnIsDue(turns: seq<Turn>, t: nat, c: nat)
    requires t < |turns| && c <= |turns[t].commands|
    ensures var begun := |Agenda(turns[..t])|;
            && begun + |turns[t].commands| < |Agenda(turns)|
            && Agenda(turns)[begun + |turns[t].commands|] == Expiry(turns[t].clock)
            && |Agenda(turns[..t + 1])| == begun + |turns[t].commands| + 1
            && (c < |turns[t].commands| ==>
                  Agenda(turns)[begun + c] == Message(turns[t].commands[c].0, turns[t].commands[c].1))
  {
    hide Agenda, Messages;
    AgendaOfOne(turns[..t + 1]);
    assert turns[..t + 1][..t] == turns[..t];
    AgendaGoesOn(turns, t + 1);
    MessagesAre(turns[t].commands, c);
  }

  lemma AgendaOfOne(turns: seq<Turn>)
    requires turns != []
    ensures var last := turns[|turns| - 1];
            Agenda(turns) == Agenda(turns[..|turns| - 1]) + Messages(last.commands) + [Expiry(last.clock)]
  {
  }

  lemma {:induction false} AgendaGoesOn(turns: seq<Turn>, t: nat)
    requires t <= |turns|
    ensures Agenda(turns[..t]) <= Agenda(turns)
  {
    if t < |turns| {
      assert turns[..|turns| - 1][..t] == turns[..t];
      AgendaGoesOn(turns[..|turns| - 1], t);
    } else {
      assert turns[..t] == turns;
    }
  }

  lemma {:induction false} MessagesAre(commands: seq<(Raw, real)>, c: nat)
    ensures |Messages(commands)| == |commands|
    ensures c < |commands| ==> Messages(commands)[c] == Message(commands[c].0, commands[c].1)
  {
    if commands != [] {
      MessagesAre(commands[..|commands| - 1], c);
    }
  }

  lemma DatagramOk(m: Moment)
    requires m.Datagram? && Answers(m.raw, m.answer)
    requires m.answer.Accepted? ==> m.answer.pad < PADS && Whole(m.answer.snapshot)
    ensures MomentOk(m)
  {
  }

  lemma PassOk(clock: seq<real>)
    requires |clock| == PADS
    ensures MomentOk(Pass(clock))
  {
  }

  /** One more moment, when it is due. */
  lemma OneMoreMoment(start: State, moments: seq<Moment>, agenda: seq<Due>, now: State, m: Moment)
    requires Going(start, moments, agenda, now) && Four(now) && |moments| < |agenda|
    requires MomentOk(m) && Meets(m, agenda[|moments|])
    ensures m.Datagram? ==> Going(start, moments + [m], agenda, Served(now, m.answer, m.now))
    ensures m.Pass? ==> Going(start, moments + [m], agenda, Lapsed(now, m.clock, PADS))
  {
    hide Served, Lapsed, MomentOk;
    assert (moments + [m])[..|moments|] == moments;
  }

  /** A turn of the loop: the datagrams that came, each with the clock's reading, and
      the clock at the expiry of each pad. */
  datatype Turn = Turn(commands: seq<(Raw, real)>, clock: seq<real>)
}
