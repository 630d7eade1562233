/** What the control plane and the worker say of the four seats, one line each way
    (control/nel3ab_control/worker.py; core/crates/transport/src/control.rs). Lines
    are sent as UTF-8. */
module SeatProtocol {
  import opened Common
  import opened Utf8
  import opened Words

  const SEATS := 4

  // ---- receipts --------------------------------------------------------------

  predicate Hex(c: char) {
    Digit(c) || 'a' <= c <= 'f'
  }

  /** Thirty-two hexadecimal digits, a dash, a positive number of at most twenty
      digits. */
  predicate Receipt(s: string) {
    && 34 <= |s| <= 53 && s[32] == '-' && '1' <= s[33] <= '9'
    && (forall i :: 0 <= i < 32 ==> Hex(s[i]))
    && (forall i :: 34 <= i < |s| ==> Digit(s[i]))
  }

  lemma ReceiptIsSolid(s: string, python: bool)
    requires Receipt(s) || s == "-"
    ensures Solid(s, python) && Ascii(s) && |s| <= 53
  {
    if Receipt(s) {
      forall i | 0 <= i < |s|
        ensures !Space(s[i], python) && s[i] as int < 0x80
      {
        assert i < 32 ==> Hex(s[i]);
        assert i >= 34 ==> Digit(s[i]);
      }
    }
  }

  predicate Distinct(seats: seq<Option<string>>) {
    forall i, j :: 0 <= i < j < |seats| && seats[i].Some? ==> seats[i] != seats[j]
  }

  /** Four seats, each free or with a receipt of its own. */
  predicate Legal(seats: seq<Option<string>>) {
    |seats| == SEATS && (forall i :: 0 <= i < SEATS ==> seats[i].Some? ==> Receipt(seats[i].value)) && Distinct(seats)
  }

  function Text(seat: Option<string>): string {
    if seat.Some? then seat.value else "-"
  }

  function Texts(seats: seq<Option<string>>): seq<string> {
    seq(|seats|, i requires 0 <= i < |seats| => Text(seats[i]))
  }

  /** What the worker answers. */
  function Printed(seats: seq<Option<string>>): string {
    Join(Texts(seats)) + "\n"
  }

  // ---- reading them ----------------------------------------------------------

  function Seat(word: string): Option<string> {
    if word == "-" then None else Some(word)
  }

  /** Four receipts, or nothing usable. A byte past ASCII is not. */
  function SeatReceipts(line: string): Option<seq<Option<string>>> {
    var values := Tokens(line, true);
    if !Ascii(line) || |values| != SEATS then None
    else if exists i :: 0 <= i < |values| && values[i] != "-" && !Receipt(values[i]) then None
    else
      var seats := seq(SEATS, i requires 0 <= i < SEATS => Seat(values[i]));
      if Distinct(seats) then Some(seats) else None
  }

  /** A line is accepted exactly when it is ASCII and its words are those of four legal
      seats, and it gives those seats. */
  lemma AcceptsExactly(line: string, seats: seq<Option<string>>)
    ensures SeatReceipts(line) == Some(seats) <==> Legal(seats) && Ascii(line) && Tokens(line, true) == Texts(seats)
  {
    hide Tokens, Receipt, Ascii;
    var values := Tokens(line, true);
    DashIsNoReceipt();
    if Legal(seats) && values == Texts(seats) {
      assert forall i :: 0 <= i < SEATS ==> Seat(values[i]) == seats[i];
      assert seats == seq(SEATS, i requires 0 <= i < SEATS => Seat(values[i]));
    }
    if SeatReceipts(line) == Some(seats) {
      assert forall i :: 0 <= i < SEATS ==> Text(seats[i]) == values[i];
      assert values == Texts(seats);
    }
  }

  lemma DashIsNoReceipt()
    ensures !Receipt("-")
  {
  }

  /** Legal seats come back from their line, and the line fits the reader. */
  lemma SeatsComeBack(seats: seq<Option<string>>)
    requires Legal(seats)
    ensures SeatReceipts(Printed(seats)) == Some(seats) && |Printed(seats)| <= 216
    ensures '\n' !in Join(Texts(seats))
  {
    var words := Texts(seats);
    forall i | 0 <= i < |words|
      ensures Solid(words[i], true) && Ascii(words[i]) && |words[i]| <= 53
    {
      ReceiptIsSolid(words[i], true);
    }
    JoinIsAscii(words);
    assert Ascii(Printed(seats));
    hide Tokens, Receipt, Texts, Ascii;
    TokensOfJoin(words, true);
    SpaceAtTheEnd(Join(words), '\n', true);
    AcceptsExactly(Printed(seats), seats);
    JoinLength(words, 53);
    NoNewline(words);
  }

  lemma {:induction false} JoinIsAscii(words: seq<string>)
    requires forall i :: 0 <= i < |words| ==> Ascii(words[i])
    ensures Ascii(Join(words))
  {
    if words != [] {
      JoinIsAscii(words[1..]);
    }
  }

  lemma {:induction false} NoNewline(words: seq<string>)
    requires forall i :: 0 <= i < |words| ==> Solid(words[i], true)
    ensures '\n' !in Join(words)
  {
    if words != [] {
      NoNewline(words[1..]);
      assert '\n' !in words[0] by {
        assert forall i :: 0 <= i < |words[0]| ==> !Space(words[0][i], true);
      }
    }
  }

  // ---- the reading loop ------------------------------------------------------

  const READ_MAX := 256

  function Least(a: nat, b: nat): nat {
    if a < b then a else b
  }

  function Sum(sizes: seq<nat>): nat {
    if sizes == [] then 0 else Sum(sizes[..|sizes| - 1]) + sizes[|sizes| - 1]
  }

  /** How much of the answer some receives bring, never past 256 bytes. */
  function Brought(data: string, sizes: seq<nat>): nat {
    Least(Sum(sizes), Least(READ_MAX, |data|))
  }

  /** The reader asks for more after these receives. */
  predicate AsksOn(data: string, sizes: seq<nat>) {
    var n := Brought(data, sizes);
    '\n' !in data[..n] && n < READ_MAX && n < |data|
  }

  /** The reader stops after so many receives: at the first that completes a line or the 256
      bytes, or before the first that finds nothing. */
  ghost predicate StopsAfter(data: string, sizes: seq<nat>, i: nat) {
    && i <= |sizes| && (forall j :: 0 <= j < i ==> AsksOn(data, sizes[..j]) && sizes[j] > 0)
    && (AsksOn(data, sizes[..i]) && i < |sizes| ==> sizes[i] == 0)
  }

  /** What was read, when it ends a line. */
  function LineIn(got: string): Option<string> {
    if got != "" && got[|got| - 1] == '\n' then Some(got) else None
  }

  /** Reads until a newline or 256 bytes. `sizes` is how much each receive finds; one
      that finds nothing is the end of the connection, or two seconds gone by. */
  method ReadLine(data: string, sizes: seq<nat>) returns (answer: Option<string>)
    ensures exists i: nat :: StopsAfter(data, sizes, i) && answer == LineIn(data[..Brought(data, sizes[..i])])
    ensures data != "" && |data| <= READ_MAX && data[|data| - 1] == '\n' && '\n' !in data[..|data| - 1]
            && |data| <= |sizes| && (forall i :: 0 <= i < |sizes| ==> sizes[i] > 0)
            ==> answer == Some(data)
  {
    hide AsksOn;
    var n, i := 0, 0;
    assert sizes[..0] == [];
    while '\n' !in data[..n] && n < READ_MAX && i < |sizes| && sizes[i] > 0 && n < |data|
      invariant 0 <= i <= |sizes| && n == Brought(data, sizes[..i])
      invariant forall j :: 0 <= j < i ==> AsksOn(data, sizes[..j]) && sizes[j] > 0
      decreases |sizes| - i
    {
      assert sizes[..i + 1][..i] == sizes[..i];
      AsksOnIff(data, sizes[..i]);
      n := n + Least(sizes[i], Least(READ_MAX - n, |data| - n));
      i := i + 1;
    }
    AsksOnIff(data, sizes[..i]);
    AWholeLine(data, sizes, i);
    return if n > 0 && data[n - 1] == '\n' then Some(data[..n]) else None;
  }

  lemma AsksOnIff(data: string, sizes: seq<nat>)
    ensures var n := Brought(data, sizes);
            AsksOn(data, sizes) <==> '\n' !in data[..n] && n < READ_MAX && n < |data|
  {
  }

  /** A line that fits is all there when the reader stops, if no receive finds nothing. */
  lemma AWholeLine(data: string, sizes: seq<nat>, i: nat)
    requires StopsAfter(data, sizes, i)
    ensures data != "" && |data| <= READ_MAX && data[|data| - 1] == '\n' && '\n' !in data[..|data| - 1]
            && |data| <= |sizes| && (forall j :: 0 <= j < |sizes| ==> sizes[j] > 0)
            ==> data[..Brought(data, sizes[..i])] == data
  {
    if data != "" && |data| <= READ_MAX && data[|data| - 1] == '\n' && '\n' !in data[..|data| - 1]
       && |data| <= |sizes| && (forall j :: 0 <= j < |sizes| ==> sizes[j] > 0) {
      OneEach(sizes[..i]);
      assert data[..|data|] == data;
    }
  }

  lemma {:induction false} OneEach(sizes: seq<nat>)
    requires forall j :: 0 <= j < |sizes| ==> sizes[j] > 0
    ensures Sum(sizes) >= |sizes|
  {
    if sizes != [] {
      OneEach(sizes[..|sizes| - 1]);
    }
  }

  /** Whatever the network does to its answer, four legal seats are read as they are. */
  method ReadSeats(seats: seq<Option<string>>, sizes: seq<nat>) returns (read: Option<seq<Option<string>>>)
    requires Legal(seats) && |Printed(seats)| <= |sizes| && forall i :: 0 <= i < |sizes| ==> sizes[i] > 0
    ensures read == Some(seats)
  {
    hide SeatReceipts, Legal, Texts;
    SeatsComeBack(seats);
    var data := Printed(seats);
    assert data[..|data| - 1] == Join(Texts(seats));
    var answer := ReadLine(data, sizes);
    read := if answer.Some? then SeatReceipts(answer.value) else None;
  }

  // ---- launching -------------------------------------------------------------

  /** A launch order, as the control plane builds it and the worker reads it. */
  datatype Launch = Launch(seat: int, claim: string, game: int, save: int, pads: seq<int>, expected: seq<string>,
                           person: string)

  const PERSON_MAX := 64
  const RECEIPT_MAX := 53
  const ORDER_MAX := 320

  /** What the control plane checks before it sends. A name may not hold a space, a tab
      or a line end. */
  predicate Accepted(o: Launch) {
    && 1 <= o.seat <= 4 && 0 <= o.game <= 255 && 0 <= o.save <= 2
    && |o.person| <= PERSON_MAX && (forall i :: 0 <= i < |o.person| ==> o.person[i] !in " \t\n\r")
    && |o.expected| == SEATS && SeatReceipts(Join(o.expected)).Some?
    && |o.pads| == SEATS && (forall i :: 0 <= i < SEATS ==> 0 <= o.pads[i] <= 4)
    && Receipt(o.claim)
  }

  /** Each expected receipt is one word, as they are when they come from the worker. */
  predicate SingleWords(o: Launch) {
    forall i :: 0 <= i < |o.expected| ==> o.expected[i] == "-" || Receipt(o.expected[i])
  }

  function Number(n: int): string {
    if n < 0 then "-" + Dec(-n) else Dec(n)
  }

  /** The words of an order, up to its last. */
  function Head(o: Launch): seq<string>
    requires |o.pads| == SEATS && |o.expected| == SEATS
  {
    ["launch", Number(o.seat), o.claim, Number(o.game), Number(o.save),
     Number(o.pads[0]), Number(o.pads[1]), Number(o.pads[2]), Number(o.pads[3]),
     o.expected[0], o.expected[1], o.expected[2], o.expected[3]]
  }

  /** A dash for nobody. */
  function Person(o: Launch): string {
    if o.person == "" then "-" else o.person
  }

  /** The line of an order, without its newline. */
  function Line(o: Launch): string
    requires |o.pads| == SEATS && |o.expected| == SEATS
  {
    Join(Head(o)) + " " + Person(o)
  }

  /** A byte as the worker reads one: digits, perhaps a plus sign, up to 255. */
  function Byte8(s: string): Option<int> {
    var digits := if s != "" && s[0] == '+' then s[1..] else s;
    if digits == "" || exists i :: 0 <= i < |digits| && !Digit(digits[i]) then None
    else if Value(digits) > 255 then None else Some(Value(digits))
  }

  function TrimStart(s: string): string {
    if s != "" && Space(s[0], false) then TrimStart(s[1..]) else s
  }

  /** The worker's reading of a line that starts as a launch. Its lengths are in bytes. */
  function WorkerReads(line: string): Option<Launch> {
    var w := Tokens(line, false);
    if |w| != 14 || !("launch " <= TrimStart(line)) then None
    else
      var seat, game, save := Byte8(w[1]), Byte8(w[3]), Byte8(w[4]);
      var pads := [Byte8(w[5]), Byte8(w[6]), Byte8(w[7]), Byte8(w[8])];
      if seat.None? || game.None? || save.None? || (exists i :: 0 <= i < 4 && pads[i].None?) then None
      else if !(1 <= seat.value <= 4) || save.value > 2 then None
      else if |Encoded(w[2])| > RECEIPT_MAX || |Encoded(w[13])| > PERSON_MAX then None
      else if exists i :: 0 <= i < 4 && (pads[i].value > 4 || |Encoded(w[9 + i])| > RECEIPT_MAX) then None
      else
        Some(Launch(seat.value, w[2], game.value, save.value,
                    [pads[0].value, pads[1].value, pads[2].value, pads[3].value], w[9..13],
                    if w[13] == "-" then "" else w[13]))
  }

  /** What reaches the worker's reader, which stops at the newline or at 320 bytes: a
      text, unless the bytes end inside a character. */
  ghost function Received(line: string): Option<string> {
    var bytes := Encoded(line);
    Decoded(if |bytes| <= ORDER_MAX then bytes else bytes[..ORDER_MAX])
  }

  /** What the worker makes of an order sent to it. */
  ghost function Answered(o: Launch): Option<Launch>
    requires |o.pads| == SEATS && |o.expected| == SEATS
  {
    var line := Received(Line(o) + "\n");
    if line.None? then None else WorkerReads(line.value)
  }

  /** What a person is read as: the name of nobody is a dash, so a dash is nobody. */
  function Normal(o: Launch): Launch {
    if o.person == "-" then o.(person := "") else o
  }

  lemma ByteComesBack(n: int)
    requires 0 <= n <= 255
    ensures Byte8(Number(n)) == Some(n) && Solid(Number(n), false) && Ascii(Number(n))
    ensures |Number(n)| <= 3 && (n < 10 ==> |Number(n)| == 1)
  {
    ValueOfDec(n);
    assert Digit(Dec(n)[0]);
  }

  lemma LaunchIsSolid()
    ensures Solid("launch", false) && Ascii("launch")
  {
  }

  /** The words of the head of an accepted order. */
  lemma HeadIsSolid(o: Launch)
    requires Accepted(o) && SingleWords(o)
    ensures forall i :: 0 <= i < |Head(o)| ==> Solid(Head(o)[i], false) && Ascii(Head(o)[i])
    ensures forall i :: 0 <= i < SEATS ==> |Number(o.pads[i])| == 1 && |o.expected[i]| <= 53
  {
    hide SeatReceipts, Dec, Receipt, Solid, Value, Number, Ascii;
    LaunchIsSolid();
    ByteComesBack(o.seat);
    ByteComesBack(o.game);
    ByteComesBack(o.save);
    forall i | 0 <= i < SEATS
      ensures Solid(Number(o.pads[i]), false) && Ascii(Number(o.pads[i])) && |Number(o.pads[i])| == 1
      ensures Solid(o.expected[i], false) && Ascii(o.expected[i]) && |o.expected[i]| <= 53
    {
      ByteComesBack(o.pads[i]);
      ReceiptIsSolid(o.expected[i], false);
    }
    ReceiptIsSolid(o.claim, false);
    var head := Head(o);
    forall i | 0 <= i < |head|
      ensures Solid(head[i], false) && Ascii(head[i])
    {
      if 5 <= i < 9 {
        assert head[i] == Number(o.pads[i - 5]);
      } else if i >= 9 {
        assert head[i] == o.expected[i - 9];
      }
    }
  }

  /** The head of an accepted order leaves at least 27 bytes for the person. */
  lemma HeadLength(o: Launch)
    requires Accepted(o) && SingleWords(o)
    ensures |Join(Head(o))| <= 292
  {
    hide SeatReceipts, Dec, Receipt, Value, Number, Join, Ascii, Solid;
    HeadIsSolid(o);
    ByteComesBack(o.seat);
    ByteComesBack(o.game);
    ByteComesBack(o.save);
    var name, seat, game := ["launch"], [Number(o.seat)], [Number(o.game)];
    var small := [Number(o.save), Number(o.pads[0]), Number(o.pads[1]), Number(o.pads[2]), Number(o.pads[3])];
    var claim := [o.claim];
    assert Head(o) == name + (seat + (claim + (game + (small + o.expected))));
    JoinOfBoth(name, seat + (claim + (game + (small + o.expected))));
    JoinOfBoth(seat, claim + (game + (small + o.expected)));
    JoinOfBoth(claim, game + (small + o.expected));
    JoinOfBoth(game, small + o.expected);
    JoinOfBoth(small, o.expected);
    ReceiptLength(o.claim);
    JoinLength(name, 6);
    JoinLength(seat, 1);
    JoinLength(claim, 53);
    JoinLength(game, 3);
    JoinLength(small, 1);
    JoinLength(o.expected, 53);
  }

  /** The worker reads its words as the order they came from. */
  lemma WordsReadBack(o: Launch)
    requires Accepted(o) && SingleWords(o) && Solid(Person(o), false)
    ensures WorkerReads(Line(o)) == if |Encoded(o.person)| <= PERSON_MAX then Some(Normal(o)) else None
  {
    hide SeatReceipts, Dec, Receipt, Value, Number, Solid, Tokens, Join, Byte8, Ascii, Encoded, Bytes;
    HeadIsSolid(o);
    var all := Head(o) + [Person(o)];
    JoinOfBoth(Head(o), [Person(o)]);
    JoinOfOne(Person(o));
    TokensOfJoin(all, false);
    ByteComesBack(o.seat);
    ByteComesBack(o.game);
    ByteComesBack(o.save);
    forall i | 0 <= i < SEATS
      ensures Byte8(Number(o.pads[i])) == Some(o.pads[i]) && |Encoded(o.expected[i])| <= RECEIPT_MAX
    {
      ByteComesBack(o.pads[i]);
      ReceiptIsSolid(o.expected[i], false);
      AsciiIsItself(o.expected[i]);
    }
    ReceiptIsSolid(o.claim, false);
    AsciiIsItself(o.claim);
    PersonLength(o);
    var pads := [Byte8(all[5]), Byte8(all[6]), Byte8(all[7]), Byte8(all[8])];
    assert forall i :: 0 <= i < 4 ==> pads[i] == Some(o.pads[i]);
    assert [pads[0].value, pads[1].value, pads[2].value, pads[3].value] == o.pads;
    assert all[9..13] == o.expected;
    StartsAsALaunch(o);
  }

  lemma StartsAsALaunch(o: Launch)
    requires |o.pads| == SEATS && |o.expected| == SEATS
    ensures "launch " <= Line(o) && TrimStart(Line(o)) == Line(o) && |Join(Head(o))| >= 7
  {
    hide Number;
    assert Join(Head(o)) == "launch" + " " + Join(Head(o)[1..]);
    assert Line(o)[..7] == "launch ";
    assert Line(o)[0] == 'l';
  }

  /** The dash of nobody counts for nothing. */
  lemma PersonLength(o: Launch)
    ensures |Encoded(Person(o))| <= PERSON_MAX <==> |Encoded(o.person)| <= PERSON_MAX
  {
    assert Ascii("-");
    AsciiIsItself("-");
    assert |Encoded("")| == 0;
  }

  lemma JoinOfOne(word: string)
    ensures Join([word]) == word
  {
  }

  lemma ReceiptLength(s: string)
    requires Receipt(s)
    ensures |s| <= RECEIPT_MAX
  {
  }

  /** A newline at the end changes nothing to what is read. */
  lemma NewlineIsNothing(line: string)
    requires "launch " <= line
    ensures WorkerReads(line + "\n") == WorkerReads(line)
  {
    hide Tokens, Byte8;
    SpaceAtTheEnd(line, '\n', false);
    assert line[0] == "launch "[0] == 'l' && (line + "\n")[0] == 'l';
    assert TrimStart(line) == line && TrimStart(line + "\n") == line + "\n";
  }

  /** The order with less of its person's name. */
  function Shortened(o: Launch, n: nat): Launch
    requires n <= |o.person|
  {
    o.(person := o.person[..n])
  }

  /** How many bytes of the person's name fit in the 320 the worker reads. */
  function RoomForPerson(o: Launch): int
    requires |o.pads| == SEATS && |o.expected| == SEATS
  {
    ORDER_MAX - |Join(Head(o))| - 1
  }

  /** The head of a line is as many bytes as characters. */
  lemma LineLength(o: Launch, person: string)
    requires Accepted(o) && SingleWords(o)
    ensures |Encoded(Join(Head(o)) + " " + person)| == |Join(Head(o))| + 1 + |Encoded(person)|
    ensures 27 <= RoomForPerson(o)
    ensures forall k :: 0 <= k <= |Join(Head(o))| + 1 ==> |Encoded((Join(Head(o)) + " " + person)[..k])| == k
  {
    HeadIsSolid(o);
    HeadLength(o);
    JoinIsAscii(Head(o));
    hide Join, Head, Solid, SeatReceipts, Receipt, Encoded, Bytes;
    var head := Join(Head(o)) + " ";
    AsciiIsItself(head);
    EncodedOfBoth(head, person);
    forall k | 0 <= k <= |head|
      ensures |Encoded((head + person)[..k])| == k
    {
      assert (head + person)[..k] == head[..k];
      AsciiIsItself(head[..k]);
    }
  }

  /** A line longer than what the worker reads is cut in its person's name: between two
      characters for a shorter name, or inside one for no text at all. */
  lemma CutLine(o: Launch)
    requires Accepted(o) && SingleWords(o) && |Encoded(Line(o))| > ORDER_MAX
    ensures forall k :: 0 <= k <= |o.person| && |Encoded(o.person[..k])| == RoomForPerson(o) ==>
        Received(Line(o) + "\n") == Some(Line(Shortened(o, k))) && k >= 2
    ensures (forall k :: 0 <= k <= |o.person| ==> |Encoded(o.person[..k])| != RoomForPerson(o)) ==>
        Received(Line(o) + "\n").None?
    ensures o.person != "" && o.person != "-"
  {
    hide SeatReceipts, Receipt, SingleWords, Encoded, Bytes, Join, Head, Decoded;
    var head, sent := Join(Head(o)) + " ", Line(o) + "\n";
    var room := RoomForPerson(o);
    LineLength(o, Person(o));
    LineLength(o, Person(o) + "\n");
    DashLength();
    assert Person(o) == o.person;
    assert sent == head + (o.person + "\n");
    EncodedOfBoth(Line(o), "\n");
    CutDecodes(sent, ORDER_MAX);
    forall k | 0 <= k <= |o.person|
      ensures sent[..|head| + k] == head + o.person[..k]
      ensures |Encoded(sent[..|head| + k])| == |head| + |Encoded(o.person[..k])|
      ensures |Encoded(o.person[..k])| == room ==> k >= 2 && Line(Shortened(o, k)) == sent[..|head| + k]
    {
      assert sent[..|head| + k] == head + o.person[..k];
      LineLength(o, o.person[..k]);
      assert Head(Shortened(o, k)) == Head(o) by {
        HeadIsShared(o, k);
      }
      assert |Encoded(o.person[..k])| == room ==> k >= 2 by {
        ShortIsShort(o.person[..k]);
      }
    }
    if Received(sent).Some? {
      var k :| 0 <= k <= |sent| && |Encoded(sent[..k])| == ORDER_MAX;
      assert sent[..|sent|] == sent;
      assert |head| < k < |sent|;
      assert sent[..|head| + (k - |head|)] == sent[..k];
      assert |Encoded(o.person[..k - |head|])| == room;
    }
  }

  lemma DashLength()
    ensures |Encoded("-")| == 1 && |Encoded("")| == 0
  {
    assert Ascii("-");
    AsciiIsItself("-");
  }

  lemma ShortIsShort(s: string)
    ensures |s| < 2 ==> |Encoded(s)| <= 8
  {
  }

  lemma HeadIsShared(o: Launch, k: nat)
    requires |o.pads| == SEATS && |o.expected| == SEATS && k <= |o.person|
    ensures Head(Shortened(o, k)) == Head(o)
  {
  }

  /** What the worker makes of an accepted order whose person is one word. Within 320
      bytes: the order, or nothing for a name of more than 64 bytes. Otherwise the same
      order for as much of the name as there is room for, or nothing when that is more
      than 64 bytes or ends inside a character. */
  lemma WhatTheWorkerReads(o: Launch)
    requires Accepted(o) && SingleWords(o) && Solid(Person(o), false)
    ensures |Encoded(Line(o))| <= ORDER_MAX ==>
              Answered(o) == if |Encoded(o.person)| <= PERSON_MAX then Some(Normal(o)) else None
    ensures |Encoded(Line(o))| > ORDER_MAX ==>
              forall k :: 0 <= k <= |o.person| && |Encoded(o.person[..k])| == RoomForPerson(o) ==>
                  && 2 <= k < |o.person|
                  && Answered(o) == if RoomForPerson(o) <= PERSON_MAX then Some(Shortened(o, k)) else None
    ensures |Encoded(Line(o))| > ORDER_MAX
            && (forall k :: 0 <= k <= |o.person| ==> |Encoded(o.person[..k])| != RoomForPerson(o))
            ==> Answered(o) == None
  {
    hide SeatReceipts, Receipt, Solid, Tokens, WorkerReads, Head, Join, Encoded, Bytes, Decoded, SingleWords;
    if |Encoded(Line(o))| <= ORDER_MAX {
      WholeLine(o);
    } else {
      CutLine(o);
      LineLength(o, o.person);
      forall k | 0 <= k <= |o.person| && |Encoded(o.person[..k])| == RoomForPerson(o)
        ensures 2 <= k < |o.person|
        ensures Answered(o) == if RoomForPerson(o) <= PERSON_MAX then Some(Shortened(o, k)) else None
      {
        assert o.person[..|o.person|] == o.person;
        ShortenedIsAccepted(o, k);
        WordsReadBack(Shortened(o, k));
      }
    }
  }

  lemma WholeLine(o: Launch)
    requires Accepted(o) && SingleWords(o) && Solid(Person(o), false) && |Encoded(Line(o))| <= ORDER_MAX
    ensures Answered(o) == if |Encoded(o.person)| <= PERSON_MAX then Some(Normal(o)) else None
  {
    hide SeatReceipts, Receipt, Solid, Tokens, WorkerReads, Head, Join, Encoded, Decoded, SingleWords;
    StartsAsALaunch(o);
    WordsReadBack(o);
    NewlineIsNothing(Line(o));
    WholeLineIsRead(o);
  }

  lemma ShortenedIsAccepted(o: Launch, n: nat)
    requires Accepted(o) && SingleWords(o) && Solid(Person(o), false) && 2 <= n <= |o.person|
    ensures Accepted(Shortened(o, n)) && SingleWords(Shortened(o, n)) && Solid(Person(Shortened(o, n)), false)
    ensures Person(Shortened(o, n)) == o.person[..n] && Normal(Shortened(o, n)) == Shortened(o, n)
  {
    hide SeatReceipts, Receipt;
    assert |o.person[..n]| >= 2;
  }

  /** Every field of an accepted order comes back, an empty person and a dash being the
      same nobody, if and only if the person's name is one word for the worker too, of at
      most 64 bytes, and the whole line is within the 320 bytes it reads. */
  lemma LaunchComesBackIff(o: Launch)
    requires Accepted(o) && SingleWords(o)
    ensures Answered(o) == Some(Normal(o))
            <==> Solid(Person(o), false) && |Encoded(o.person)| <= PERSON_MAX && |Encoded(Line(o))| <= ORDER_MAX
  {
    hide SeatReceipts, Receipt, Head, Join, Tokens, Byte8, WorkerReads, Encoded, Decoded, SingleWords;
    if Solid(Person(o), false) {
      WhatTheWorkerReads(o);
    } else if Answered(o).Some? {
      PersonIsOneWord(Received(Line(o) + "\n").value);
    }
  }

  /** The worker only ever reads names of one word. */
  lemma PersonIsOneWord(line: string)
    requires WorkerReads(line).Some?
    ensures WorkerReads(line).value.person == "" || Solid(WorkerReads(line).value.person, false)
  {
    hide Byte8;
    var w := Tokens(line, false);
    assert Solid(w[13], false);
  }

  /** The worker's words of a line: those of its head, and those its person's name holds. */
  lemma TokensOfLine(o: Launch)
    requires Accepted(o) && SingleWords(o)
    ensures Tokens(Line(o), false) == Head(o) + Tokens(Person(o), false)
  {
    hide SeatReceipts, Receipt, Tokens, Join, Solid, Head;
    HeadIsSolid(o);
    TokensOfJoin(Head(o), false);
    TokensOfBoth(Join(Head(o)), ' ', Person(o), false);
  }

  /** An accepted name may hold white space that only the worker knows. An order of at most
      320 bytes is then read for the one word of its name, if that is at most 64 bytes, and
      not at all when there are several, or none. */
  lemma NameOfOneWord(o: Launch)
    requires Accepted(o) && SingleWords(o) && |Encoded(Line(o))| <= ORDER_MAX
    ensures var words := Tokens(Person(o), false);
            Answered(o) == if |words| == 1 && |Encoded(words[0])| <= PERSON_MAX
                           then Some(Normal(o.(person := words[0]))) else None
  {
    hide SeatReceipts, Receipt, Tokens, Join, Solid, Head, Encoded, Decoded, Byte8, SingleWords;
    var words := Tokens(Person(o), false);
    WholeLineIsRead(o);
    TokensOfLine(o);
    StartsAsALaunch(o);
    NewlineIsNothing(Line(o));
    HeadIsLong(o);
    if |words| == 1 {
      var one := o.(person := words[0]);
      OneWordIsAccepted(o, words[0]);
      TokensOfLine(one);
      SolidIsItsWord(words[0]);
      assert Head(one) == Head(o) by { HeadIgnoresName(o, words[0]); }
      StartsAsALaunch(one);
      WordsReadBack(one);
    }
  }

  lemma HeadIsLong(o: Launch)
    requires |o.pads| == SEATS && |o.expected| == SEATS
    ensures |Head(o)| == 13
  {
  }

  lemma HeadIgnoresName(o: Launch, person: string)
    requires |o.pads| == SEATS && |o.expected| == SEATS
    ensures Head(o.(person := person)) == Head(o)
  {
  }

  lemma SolidIsItsWord(w: string)
    requires Solid(w, false)
    ensures Tokens(w, false) == [w]
  {
    TokensOfWord(w, "", false);
    assert w + "" == w;
  }

  lemma OneWordIsAccepted(o: Launch, w: string)
    requires Accepted(o) && SingleWords(o) && Tokens(Person(o), false) == [w]
    ensures Solid(w, false) && Accepted(o.(person := w)) && SingleWords(o.(person := w))
    ensures Person(o.(person := w)) == w
  {
    hide SeatReceipts, Receipt;
    var words := Tokens(Person(o), false);
    assert words[0] == w && Solid(w, false);
    WordsAreInside(Person(o), w, false);
  }

  /** The characters of the words of a text are its own. */
  lemma {:induction false} WordsAreInside(s: string, w: string, python: bool)
    requires w in Tokens(s, python)
    ensures |w| <= |s| && forall c :: c in w ==> c in s
    decreases |s|
  {
    if Space(s[0], python) {
      WordsAreInside(s[1..], w, python);
    } else {
      var first := Word(s, python);
      assert first == s[..|first|];
      if w != first {
        WordsAreInside(s[|first|..], w, python);
      }
    }
  }

  lemma WholeLineIsRead(o: Launch)
    requires |o.pads| == SEATS && |o.expected| == SEATS && |Encoded(Line(o))| <= ORDER_MAX
    ensures Received(Line(o) + "\n") == Some(Line(o)) || Received(Line(o) + "\n") == Some(Line(o) + "\n")
  {
    hide Join, Head, Encoded, Decoded;
    var sent := Line(o) + "\n";
    EncodedOfBoth(Line(o), "\n");
    assert |Encoded("\n")| == 1 by {
      assert Ascii("\n");
      AsciiIsItself("\n");
    }
    DecodedOfEncoded(sent);
    CutDecodes(sent, |Encoded(Line(o))|);
    assert sent[..|Line(o)|] == Line(o);
  }

  // ---- orders that do not come back ------------------------------------------

  /** The longest receipt of one digit. */
  function LongReceipt(digit: char): string {
    Repeated('0', 32) + "-" + Repeated(digit, 20)
  }

  /** The order of somebody for a first game: with every seat taken, all receipts at their
      longest, or every other seat free. */
  function Order(full: bool, person: string): Launch {
    var expected := if full then [LongReceipt('1'), LongReceipt('2'), LongReceipt('3'), LongReceipt('4')]
                    else ["-", "-", "-", "-"];
    Launch(1, LongReceipt('5'), 1, 0, [1, 0, 0, 0], expected, person)
  }

  lemma LongReceipts(digit: char, other: char)
    requires '1' <= digit <= '9'
    ensures Receipt(LongReceipt(digit)) && |LongReceipt(digit)| == 53
    ensures LongReceipt(digit) == LongReceipt(other) ==> digit == other
  {
    assert LongReceipt(digit)[33] == digit && LongReceipt(other)[33] == other;
  }

  lemma OrderIsAccepted(full: bool, person: string)
    requires |person| <= PERSON_MAX && forall i :: 0 <= i < |person| ==> person[i] !in " \t\n\r"
    ensures Accepted(Order(full, person)) && SingleWords(Order(full, person))
  {
    hide SeatReceipts, Receipt, Tokens, LongReceipt, Join;
    var words := Order(full, person).expected;
    var digits := ['1', '2', '3', '4', '5'];
    forall i, j | 0 <= i < 5 && 0 <= j < 5
      ensures Receipt(LongReceipt(digits[i]))
      ensures i != j ==> LongReceipt(digits[i]) != LongReceipt(digits[j])
    {
      LongReceipts(digits[i], digits[j]);
    }
    assert full ==> forall i :: 0 <= i < SEATS ==> words[i] == LongReceipt(digits[i]);
    assert LongReceipt(digits[4]) == LongReceipt('5');
    DashIsNoReceipt();
    var seats := seq(SEATS, i requires 0 <= i < SEATS => Seat(words[i]));
    forall i | 0 <= i < SEATS
      ensures Solid(words[i], true) && Ascii(words[i])
    {
      ReceiptIsSolid(words[i], true);
    }
    TokensOfJoin(words, true);
    JoinIsAscii(words);
    assert Texts(seats) == words;
    AcceptsExactly(Join(words), seats);
  }

  /** How long a head is whose numbers have one digit and whose receipts are as long. */
  lemma HeadSize(o: Launch, n: nat)
    requires |o.pads| == SEATS && |o.expected| == SEATS && |o.claim| == 53
    requires |Number(o.seat)| == |Number(o.game)| == |Number(o.save)| == 1
    requires forall i :: 0 <= i < SEATS ==> |Number(o.pads[i])| == 1 && |o.expected[i]| == n
    ensures |Join(Head(o))| == 78 + 4 * n
  {
    hide Join, Number, Letters;
    var name, seat, claim := ["launch"], [Number(o.seat)], [o.claim];
    var small := [Number(o.game), Number(o.save)] + [Number(o.pads[0]), Number(o.pads[1])]
                 + [Number(o.pads[2]), Number(o.pads[3])];
    assert Head(o) == name + (seat + (claim + (small + o.expected)));
    LettersOfBoth(name, seat + (claim + (small + o.expected)));
    LettersOfBoth(seat, claim + (small + o.expected));
    LettersOfBoth(claim, small + o.expected);
    LettersOfBoth(small, o.expected);
    LettersOfEqual(name, 6);
    LettersOfEqual(seat, 1);
    LettersOfEqual(claim, 53);
    LettersOfEqual(small, 1);
    LettersOfEqual(o.expected, n);
    JoinSize(Head(o));
  }

  lemma OrderLength(full: bool, person: string)
    ensures |Join(Head(Order(full, person)))| == if full then 290 else 82
  {
    hide LongReceipt, Join, Number, Head;
    LongReceipts('1', '1');
    LongReceipts('2', '2');
    LongReceipts('3', '3');
    LongReceipts('4', '4');
    LongReceipts('5', '5');
    ByteComesBack(0);
    ByteComesBack(1);
    HeadSize(Order(full, person), if full then 53 else 1);
  }

  /** With every seat taken and its receipts at their longest, a name of more than 29
      letters is read as its first 29. */
  lemma ALongOrderShortensAName(person: string)
    requires 29 < |person| <= PERSON_MAX && Ascii(person) && Solid(person, false)
    ensures var o := Order(true, person);
            && Accepted(o) && SingleWords(o) && |Encoded(Line(o))| > ORDER_MAX
            && Answered(o) == Some(Shortened(o, 29)) && Answered(o) != Some(Normal(o))
  {
    hide Accepted, Answered, Head, Join, Encoded, SingleWords;
    var o := Order(true, person);
    NoSpaces(person);
    OrderIsAccepted(true, person);
    OrderLength(true, person);
    LineLength(o, person);
    AsciiIsItself(person);
    AsciiIsItself(person[..29]);
    WhatTheWorkerReads(o);
  }

  lemma NoSpaces(person: string)
    requires Solid(person, false)
    ensures forall i :: 0 <= i < |person| ==> person[i] !in " \t\n\r"
  {
  }

  /** A name within 64 characters and over 64 bytes is accepted, and its order not read. */
  lemma ALongNameIsNotRead(person: string)
    requires |person| <= PERSON_MAX < |Encoded(person)| <= 200 && Solid(person, false)
    ensures var o := Order(false, person);
            Accepted(o) && SingleWords(o) && |Encoded(Line(o))| <= ORDER_MAX && Answered(o) == None
  {
    hide Accepted, Answered, Head, Join, Encoded, SingleWords;
    var o := Order(false, person);
    NoSpaces(person);
    OrderIsAccepted(false, person);
    OrderLength(false, person);
    LineLength(o, person);
    assert Person(o) == person;
    WhatTheWorkerReads(o);
  }

  const E_ACUTE: char := '\U{E9}'
  const NO_BREAK: char := '\U{A0}'

  /** Thirty-three accented letters are such a name. */
  lemma AnAccentedName(n: nat)
    requires 33 <= n <= PERSON_MAX
    ensures Answered(Order(false, Repeated(E_ACUTE, n))) == None && Accepted(Order(false, Repeated(E_ACUTE, n)))
  {
    hide Accepted, Answered, Encoded;
    Accents(n);
    ALongNameIsNotRead(Repeated(E_ACUTE, n));
  }

  lemma {:induction false} Accents(n: nat)
    ensures |Encoded(Repeated(E_ACUTE, n))| == 2 * n
    ensures n > 0 ==> Solid(Repeated(E_ACUTE, n), false)
  {
    var s := Repeated(E_ACUTE, n);
    if n > 0 {
      Accents(n - 1);
      assert s[1..] == Repeated(E_ACUTE, n - 1) && s[0] == E_ACUTE;
      assert |Bytes(E_ACUTE)| == 2;
    }
  }

  /** Two words with a no-break space between are accepted as a name, and their order not
      read; a name with one at its end is read without it. */
  lemma ANameOfTwoWords(one: string, two: string)
    requires Solid(one, false) && Solid(two, false) && Ascii(one) && Ascii(two) && |one| + |two| < PERSON_MAX
    ensures var o := Order(false, one + [NO_BREAK] + two);
            Accepted(o) && SingleWords(o) && Answered(o) == None
    ensures var o := Order(false, one + [NO_BREAK]);
            Accepted(o) && SingleWords(o) && Answered(o) == Some(Normal(o.(person := one)))
  {
    hide Accepted, Answered, Head, Join, Encoded, SingleWords, Tokens;
    TokensOfBoth(one, NO_BREAK, two, false);
    SpaceAtTheEnd(one, NO_BREAK, false);
    SolidIsItsWord(one);
    SolidIsItsWord(two);
    AsciiIsItself(one);
    AsciiIsItself(two);
    EncodedOfBoth(one, [NO_BREAK]);
    EncodedOfBoth(one + [NO_BREAK], two);
    assert |Encoded([NO_BREAK])| <= 4;
    forall person | person == one + [NO_BREAK] + two || person == one + [NO_BREAK]
      ensures Accepted(Order(false, person)) && SingleWords(Order(false, person))
      ensures |Encoded(Line(Order(false, person)))| <= ORDER_MAX
    {
      NoSpaces(one);
      NoSpaces(two);
      OrderIsAccepted(false, person);
      OrderLength(false, person);
      LineLength(Order(false, person), person);
    }
    NameOfOneWord(Order(false, one + [NO_BREAK] + two));
    NameOfOneWord(Order(false, one + [NO_BREAK]));
  }
}
