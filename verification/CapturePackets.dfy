/** The incremental parser of the recorder's length-prefixed packets
    (spikes/switch-room/capture_packets.py) and the loop that feeds it. */
module CapturePackets {
  import opened Common

  const HEADER_SIZE := 12
  const MAX_PACKET := 4_194_304
  const U32 := 0x1_0000_0000
  const U64 := 0x1_0000_0000_0000_0000

  datatype Packet = Packet(captured: nat, payload: seq<Byte>)

  predicate LegalHeader(captured: nat, size: nat) {
    captured != 0 && 0 < size <= MAX_PACKET
  }

  /** What a producer may frame. */
  predicate LegalPacket(p: Packet) {
    LegalHeader(p.captured, |p.payload|) && p.captured < U64
  }

  function HeaderBytes(captured: nat, size: nat): (s: seq<Byte>)
    requires captured < U64 && size < U32
    ensures |s| == HEADER_SIZE
  {
    PowersForHeader();
    ToLE(captured, 8) + ToLE(size, 4)
  }

  /** Eight and four bytes hold exactly the unsigned 64-bit and 32-bit numbers. */
  lemma PowersForHeader()
    ensures Pow256(4) == U32 && Pow256(8) == U64
  {
    assert Pow256(4) == 256 * (256 * (256 * (256 * Pow256(0))));
    assert Pow256(8) == 256 * (256 * (256 * (256 * Pow256(4))));
  }

  function Encode(p: Packet): (s: seq<Byte>)
    requires LegalPacket(p)
    ensures |s| == HEADER_SIZE + |p.payload|
  {
    HeaderBytes(p.captured, |p.payload|) + p.payload
  }

  ghost predicate AllLegal(ps: seq<Packet>) {
    forall i :: 0 <= i < |ps| ==> LegalPacket(ps[i])
  }

  function EncodeAll(ps: seq<Packet>): seq<Byte>
    requires AllLegal(ps)
  {
    if ps == [] then [] else Encode(ps[0]) + EncodeAll(ps[1..])
  }

  function Captured(s: seq<Byte>): nat
    requires |s| >= HEADER_SIZE
  {
    FromLE(s[..8])
  }

  function Size(s: seq<Byte>): nat
    requires |s| >= HEADER_SIZE
  {
    FromLE(s[8..12])
  }

  /** A whole stream read at once: the packets it holds, the bytes after the last
      one, and whether those bytes start with a refused header. */
  datatype Parsed = Parsed(packets: seq<Packet>, tail: seq<Byte>, bad: bool)

  function Prepend(ps: seq<Packet>, rest: Parsed): Parsed {
    Parsed(ps + rest.packets, rest.tail, rest.bad)
  }

  function Parse(s: seq<Byte>): Parsed
    decreases |s|
  {
    if |s| < HEADER_SIZE then Parsed([], s, false)
    else if !LegalHeader(Captured(s), Size(s)) then Parsed([], s, true)
    else if |s| < HEADER_SIZE + Size(s) then Parsed([], s, false)
    else
      var n := HEADER_SIZE + Size(s);
      Prepend([Packet(Captured(s), s[HEADER_SIZE..n])], Parse(s[n..]))
  }

  lemma HeaderRoundTrip(captured: nat, size: nat, rest: seq<Byte>)
    requires captured < U64 && size < U32
    ensures Captured(HeaderBytes(captured, size) + rest) == captured
    ensures Size(HeaderBytes(captured, size) + rest) == size
  {
    PowersForHeader();
    var s := HeaderBytes(captured, size) + rest;
    assert s[..8] == ToLE(captured, 8);
    assert s[8..12] == ToLE(size, 4);
    FromToLE(captured, 8);
    FromToLE(size, 4);
  }

  lemma HeaderIsItsBytes(s: seq<Byte>)
    requires |s| >= HEADER_SIZE
    ensures Captured(s) < U64 && Size(s) < U32
    ensures HeaderBytes(Captured(s), Size(s)) == s[..HEADER_SIZE]
  {
    PowersForHeader();
    ToFromLE(s[..8]);
    ToFromLE(s[8..12]);
  }

  /** Of a header in front of anything: it is refused at once if and only if it says zero as
      its time, no payload, or one of more than four mebibytes. */
  lemma RefusedHeaderIff(captured: nat, size: nat, rest: seq<Byte>)
    requires captured < U64 && size < U32
    ensures var s := HeaderBytes(captured, size) + rest;
            Parse(s) == Parsed([], s, true) <==> captured == 0 || size == 0 || size > 4 * 1024 * 1024
  {
    HeaderRoundTrip(captured, size, rest);
  }

  /** One framed packet in front of anything is cut off as itself. */
  lemma ParseOne(p: Packet, rest: seq<Byte>)
    requires LegalPacket(p)
    ensures Parse(Encode(p) + rest) == Prepend([p], Parse(rest))
  {
    var s := Encode(p) + rest;
    assert s == HeaderBytes(p.captured, |p.payload|) + (p.payload + rest);
    HeaderRoundTrip(p.captured, |p.payload|, p.payload + rest);
    var n := HEADER_SIZE + |p.payload|;
    assert s[HEADER_SIZE..n] == p.payload;
    assert s[n..] == rest;
  }

  lemma PrependTwice(a: seq<Packet>, b: seq<Packet>, rest: Parsed)
    ensures Prepend(a, Prepend(b, rest)) == Prepend(a + b, rest)
    ensures Prepend([], rest) == rest
  {
    assert a + (b + rest.packets) == (a + b) + rest.packets;
    assert [] + rest.packets == rest.packets;
  }

  /** Parsing inverts framing, whatever follows the packets. */
  lemma {:induction false} ParseInvertsEncode(ps: seq<Packet>, rest: seq<Byte>)
    requires AllLegal(ps)
    ensures Parse(EncodeAll(ps) + rest) == Prepend(ps, Parse(rest))
  {
    hide FromLE;
    if ps == [] {
      assert EncodeAll(ps) + rest == rest;
      PrependTwice([], [], Parse(rest));
    } else {
      var after := EncodeAll(ps[1..]) + rest;
      assert EncodeAll(ps) + rest == Encode(ps[0]) + after;
      ParseOne(ps[0], after);
      ParseInvertsEncode(ps[1..], rest);
      PrependTwice([ps[0]], ps[1..], Parse(rest));
      assert [ps[0]] + ps[1..] == ps;
    }
  }

  /** The packet at the front of a stream, framed again, is that front. */
  lemma FirstPacketIsItsBytes(s: seq<Byte>)
    requires |s| >= HEADER_SIZE && LegalHeader(Captured(s), Size(s))
    requires |s| >= HEADER_SIZE + Size(s)
    ensures var n := HEADER_SIZE + Size(s);
            var p := Packet(Captured(s), s[HEADER_SIZE..n]);
            LegalPacket(p) && Encode(p) == s[..n]
  {
    HeaderIsItsBytes(s);
    var n := HEADER_SIZE + Size(s);
    assert s[..n] == s[..HEADER_SIZE] + s[HEADER_SIZE..n];
  }

  lemma EncodeFirst(p: Packet, rest: seq<Packet>)
    requires LegalPacket(p) && AllLegal(rest)
    ensures AllLegal([p] + rest) && EncodeAll([p] + rest) == Encode(p) + EncodeAll(rest)
  {
    hide LegalPacket, Encode;
    assert ([p] + rest)[1..] == rest;
  }

  /** Nothing is lost or invented: the packets found, framed again, and the tail
      are the stream. */
  lemma {:induction false} ParseConserves(s: seq<Byte>)
    ensures AllLegal(Parse(s).packets)
    ensures EncodeAll(Parse(s).packets) + Parse(s).tail == s
    decreases |s|
  {
    hide Encode, EncodeAll, AllLegal, LegalPacket, Parse, Complete;
    NothingEncoded();
    ParseCases(s);
    if Complete(s) {
      var (p, n) := First(s);
      var rest := Parse(s[n..]);
      ParseConserves(s[n..]);
      EncodeFirst(p, rest.packets);
      assert Encode(p) + EncodeAll(rest.packets) + rest.tail == Encode(p) + s[n..] == s;
    } else {
      assert [] + s == s;
    }
  }

  /** A whole packet is at the front. */
  predicate Complete(s: seq<Byte>) {
    |s| >= HEADER_SIZE && LegalHeader(Captured(s), Size(s)) && |s| >= HEADER_SIZE + Size(s)
  }

  /** That packet, and how long it is. */
  function First(s: seq<Byte>): (r: (Packet, nat))
    requires Complete(s)
    ensures 0 < r.1 <= |s|
  {
    (Packet(Captured(s), s[HEADER_SIZE..HEADER_SIZE + Size(s)]), HEADER_SIZE + Size(s))
  }

  lemma ParseCases(s: seq<Byte>)
    ensures !Complete(s) ==> Parse(s).packets == [] && Parse(s).tail == s
    ensures Complete(s) ==>
              var (p, n) := First(s);
              LegalPacket(p) && Encode(p) == s[..n] && Parse(s) == Prepend([p], Parse(s[n..]))
  {
    hide FromLE, Encode, LegalPacket;
    if Complete(s) {
      FirstPacketIsItsBytes(s);
    }
  }

  lemma NothingEncoded()
    ensures AllLegal([]) && EncodeAll([]) == []
  {
  }

  /** A refused tail holds at least a whole header, any other tail is less than
      one packet of the largest size, and a tail parses to itself. */
  lemma {:induction false} TailIsUnfinished(s: seq<Byte>)
    ensures Parse(s).bad ==> |Parse(s).tail| >= HEADER_SIZE
                             && !LegalHeader(Captured(Parse(s).tail), Size(Parse(s).tail))
    ensures !Parse(s).bad ==> |Parse(s).tail| < HEADER_SIZE + MAX_PACKET
    ensures Parse(Parse(s).tail) == Parsed([], Parse(s).tail, Parse(s).bad)
    decreases |s|
  {
    if |s| >= HEADER_SIZE && LegalHeader(Captured(s), Size(s)) && |s| >= HEADER_SIZE + Size(s) {
      TailIsUnfinished(s[HEADER_SIZE + Size(s)..]);
    }
  }

  /** A refused header stays refused, whatever arrives after it. */
  lemma RefusedStays(tail: seq<Byte>, more: seq<Byte>)
    requires |tail| >= HEADER_SIZE && !LegalHeader(Captured(tail), Size(tail))
    ensures Parse(tail + more) == Parsed([], tail + more, true)
  {
    assert (tail + more)[..8] == tail[..8] && (tail + more)[8..12] == tail[8..12];
  }

  /** Parsing can resume from the tail: this is what makes it incremental. */
  lemma ParseResumes(a: seq<Byte>, b: seq<Byte>)
    ensures !Parse(a).bad ==> Parse(a + b) == Prepend(Parse(a).packets, Parse(Parse(a).tail + b))
    ensures Parse(a).bad ==> Parse(a + b) == Parsed(Parse(a).packets, Parse(a).tail + b, true)
  {
    hide FromLE;
    ParseConserves(a);
    TailIsUnfinished(a);
    var ps, tail := Parse(a).packets, Parse(a).tail;
    assert a + b == EncodeAll(ps) + (tail + b);
    ParseInvertsEncode(ps, tail + b);
    if Parse(a).bad {
      RefusedStays(tail, b);
    }
  }

  /** A stream is a whole number of legal packets exactly when it parses to the end. */
  lemma WholeStreamIff(s: seq<Byte>)
    ensures Parse(s).tail == [] <==> exists ps :: AllLegal(ps) && EncodeAll(ps) == s
  {
    ParseConserves(s);
    if Parse(s).tail == [] {
      assert EncodeAll(Parse(s).packets) == s;
    }
    if ps :| AllLegal(ps) && EncodeAll(ps) == s {
      ParseInvertsEncode(ps, []);
      assert EncodeAll(ps) + [] == s;
    }
  }

  lemma SameHeader(s: seq<Byte>, n: nat)
    requires HEADER_SIZE <= n <= |s|
    ensures Captured(s[..n]) == Captured(s) && Size(s[..n]) == Size(s)
  {
    assert s[..n][..8] == s[..8];
    assert s[..n][8..12] == s[8..12];
  }

  /** The first refused header is refused when its twelfth byte is there, no
      sooner and no later. */
  lemma RefusedAtTwelfthByte(s: seq<Byte>, arrived: nat)
    requires Parse(s).bad && arrived <= |s|
    ensures Parse(s[..arrived]).bad <==> arrived >= |s| - |Parse(s).tail| + HEADER_SIZE
  {
    hide FromLE, Parse;
    ParseConserves(s);
    TailIsUnfinished(s);
    var ps, tail := Parse(s).packets, Parse(s).tail;
    var start := |s| - |tail|;
    if arrived >= start {
      var seen := tail[..arrived - start];
      assert s[..arrived] == EncodeAll(ps) + seen;
      ParseInvertsEncode(ps, seen);
      BadFromTheTwelfth(tail, |seen|);
    } else {
      ParseResumes(s[..arrived], s[arrived..start]);
      assert s[..arrived] + s[arrived..start] == EncodeAll(ps) == EncodeAll(ps) + [];
      ParseInvertsEncode(ps, []);
      ParseNothing();
    }
  }

  lemma ParseNothing()
    ensures Parse([]) == Parsed([], [], false)
  {
  }

  lemma BadFromTheTwelfth(tail: seq<Byte>, n: nat)
    requires n <= |tail| && |tail| >= HEADER_SIZE && !LegalHeader(Captured(tail), Size(tail))
    ensures Parse(tail[..n]).bad <==> n >= HEADER_SIZE
  {
    if n >= HEADER_SIZE {
      SameHeader(tail, n);
    }
  }

  /** Taking the header off a stream keeps the stream. */
  lemma HeaderTaken(s: seq<Byte>)
    requires |s| >= HEADER_SIZE
    ensures Captured(s) < U64 && Size(s) < U32
    ensures HeaderBytes(Captured(s), Size(s)) + s[HEADER_SIZE..] == s
  {
    HeaderIsItsBytes(s);
  }

  /** A taken header with an incomplete body is all tail; with a complete one it
      is a packet in front of the rest. */
  lemma BodyTaken(captured: nat, size: nat, body: seq<Byte>)
    requires LegalHeader(captured, size) && captured < U64 && size < U32
    ensures var s := HeaderBytes(captured, size) + body;
            Parse(s) == if |body| < size then Parsed([], s, false)
                        else Prepend([Packet(captured, body[..size])], Parse(body[size..]))
  {
    if |body| < size {
      HeaderRoundTrip(captured, size, body);
    } else {
      var p := Packet(captured, body[..size]);
      ParseOne(p, body[size..]);
      assert Encode(p) + body[size..] == HeaderBytes(captured, size) + body;
    }
  }

  // ---- the parser object -----------------------------------------------------

  /** `feed` raised. */
  datatype Refusal = InvalidHeader | InsidePacket

  class Packets {
    var buffer: seq<Byte>
    var header: Option<(nat, nat)>

    /** A header that was taken is a legal one. */
    ghost predicate Framed()
      reads this
    {
      header.Some? ==> LegalHeader(header.value.0, header.value.1) && header.value.0 < U64
    }

    /** What holds between two successful calls. */
    ghost predicate Valid()
      reads this
    {
      && Framed()
      && |buffer| < if header.Some? then header.value.1 else HEADER_SIZE
    }

    /** The bytes taken in and not handed on yet. */
    ghost function Pending(): (s: seq<Byte>)
      requires Framed()
      reads this
    {
      match header
      case None => buffer
      case Some((captured, size)) => HeaderBytes(captured, size) + buffer
    }

    constructor ()
      ensures Valid() && Pending() == []
    {
      buffer := [];
      header := None;
    }

    /** One arrival. The whole stream so far decides the answer; the retained
        buffer stays under the size limit; a refusal discards what this same call
        had already cut out. */
    method Feed(data: seq<Byte>) returns (r: Result<seq<Packet>, Refusal>)
      requires Valid()
      modifies this
      ensures var whole := Parse(old(Pending()) + data);
              && (r.Ok? <==> !whole.bad)
              && (r.Ok? ==> r.value == whole.packets && Valid() && Pending() == whole.tail
                            && |buffer| < MAX_PACKET)
              && (r.Err? ==> r.error == InvalidHeader && header == None && buffer == whole.tail)
    {
      hide FromLE;
      ghost var stream := Pending() + data;
      buffer := buffer + data;
      var result: seq<Packet> := [];
      assert Pending() == stream;
      PrependTwice([], [], Parse(stream));
      while true
        invariant Framed()
        invariant Parse(stream) == Prepend(result, Parse(Pending()))
        decreases |buffer|, header.None?
      {
        if header.None? {
          if |buffer| < HEADER_SIZE { break; }
          var captured, size := FromLE(buffer[..8]), FromLE(buffer[8..12]);
          if captured == 0 || !(0 < size <= MAX_PACKET) {
            return Err(InvalidHeader);
          }
          HeaderTaken(buffer);
          header := Some((captured, size));
          buffer := buffer[HEADER_SIZE..];
        }
        var (captured, size) := header.value;
        BodyTaken(captured, size, buffer);
        if |buffer| < size { break; }
        PrependTwice(result, [Packet(captured, buffer[..size])], Parse(buffer[size..]));
        result := result + [Packet(captured, buffer[..size])];
        buffer := buffer[size..];
        header := None;
      }
      return Ok(result);
    }

    /** The end of the stream is refused unless nothing is pending. */
    method Finish() returns (r: Result<(), Refusal>)
      requires Valid()
      ensures r == if Pending() == [] then Ok(()) else Err(InsidePacket)
    {
      if buffer != [] || header.Some? {
        return Err(InsidePacket);
      }
      return Ok(());
    }
  }

  // ---- every way of cutting the stream ---------------------------------------

  /** What the caller has received after a sequence of arrivals, the bytes still
      pending, and the arrival that was refused, if one was. */
  datatype Reading = Reading(delivered: seq<Packet>, pending: seq<Byte>, refused: Option<nat>)

  function Read(arrivals: seq<seq<Byte>>): Reading {
    if arrivals == [] then Reading([], [], None)
    else
      var n := |arrivals| - 1;
      var before := Read(arrivals[..n]);
      if before.refused.Some? then before
      else
        var whole := Parse(before.pending + arrivals[n]);
        if whole.bad then before.(refused := Some(n), pending := whole.tail)
        else Reading(before.delivered + whole.packets, whole.tail, None)
  }

  /** For every cutting of a stream into arrivals: a stream with no refused header
      gives exactly the packets of a one-shot parse, and a stream with one is
      refused at the first arrival that completes the bad header, having given
      the packets of everything before that arrival. */
  lemma {:induction false} AnyCuttingGivesTheSamePackets(arrivals: seq<seq<Byte>>)
    ensures var whole, got := Parse(Flatten(arrivals)), Read(arrivals);
            && (got.refused.Some? <==> whole.bad)
            && (got.refused.None? ==> got.delivered == whole.packets && got.pending == whole.tail)
            && (got.refused.Some? ==>
                  var k := got.refused.value;
                  && k < |arrivals|
                  && !Parse(Flatten(arrivals[..k])).bad
                  && Parse(Flatten(arrivals[..k + 1])).bad
                  && got.delivered == Parse(Flatten(arrivals[..k])).packets)
  {
    hide FromLE;
    if arrivals != [] {
      var n := |arrivals| - 1;
      var earlier := arrivals[..n];
      AnyCuttingGivesTheSamePackets(earlier);
      assert arrivals == earlier + [arrivals[n]];
      FlattenSnoc(earlier, arrivals[n]);
      ParseResumes(Flatten(earlier), arrivals[n]);
      if Read(earlier).refused.Some? {
        var k := Read(earlier).refused.value;
        assert earlier[..k] == arrivals[..k] && earlier[..k + 1] == arrivals[..k + 1];
      } else {
        assert arrivals[..n + 1] == arrivals;
      }
    }
  }

  /** A beginning of a stream holds a beginning of its packets, and all of them
      exactly when it reaches the end of the last one. */
  lemma PacketsOfABeginning(a: seq<Byte>, b: seq<Byte>)
    ensures AllLegal(Parse(a + b).packets) && Parse(a).packets <= Parse(a + b).packets
    ensures Parse(a).packets == Parse(a + b).packets <==> |EncodeAll(Parse(a + b).packets)| <= |a|
  {
    hide FromLE, Parse, EncodeAll, LegalPacket;
    ParseConserves(a);
    ParseConserves(a + b);
    ParseResumes(a, b);
    var whole := Parse(a + b).packets;
    var cut := |EncodeAll(whole)|;
    if cut <= |a| {
      assert a[..cut] == (a + b)[..cut] == EncodeAll(whole);
      ParseInvertsEncode(whole, a[cut..]);
      assert a == EncodeAll(whole) + a[cut..];
      assert |Parse(a).packets| >= |whole|;
    }
  }

  /** After a refusal the caller misses packets exactly when one of them was
      completed by the refused arrival itself. */
  lemma RefusalLosesIff(arrivals: seq<seq<Byte>>)
    requires Read(arrivals).refused.Some?
    ensures var whole, got := Parse(Flatten(arrivals)), Read(arrivals);
            && got.refused.value < |arrivals|
            && AllLegal(whole.packets)
            && got.delivered <= whole.packets
            && (got.delivered == whole.packets <==>
                  |EncodeAll(whole.packets)| <= |Flatten(arrivals[..got.refused.value])|)
  {
    hide FromLE, Parse;
    AnyCuttingGivesTheSamePackets(arrivals);
    var k := Read(arrivals).refused.value;
    assert arrivals == arrivals[..k] + arrivals[k..];
    FlattenAppend(arrivals[..k], arrivals[k..]);
    PacketsOfABeginning(Flatten(arrivals[..k]), Flatten(arrivals[k..]));
  }

  /** Reads of at most twelve bytes can never lose a packet to a refusal. */
  lemma ShortReadsLoseNothing(arrivals: seq<seq<Byte>>)
    requires Read(arrivals).refused.Some?
    requires forall i :: 0 <= i < |arrivals| ==> |arrivals[i]| <= HEADER_SIZE
    ensures Read(arrivals).delivered == Parse(Flatten(arrivals)).packets
  {
    hide FromLE;
    AnyCuttingGivesTheSamePackets(arrivals);
    RefusalLosesIff(arrivals);
    var k := Read(arrivals).refused.value;
    RefusedArrivalReachesHeader(arrivals, k);
    ParseConserves(Flatten(arrivals));
  }

  /** The refused arrival brings the stream to the twelfth byte of the bad header. */
  lemma RefusedArrivalReachesHeader(arrivals: seq<seq<Byte>>, k: nat)
    requires k < |arrivals| && Parse(Flatten(arrivals)).bad && Parse(Flatten(arrivals[..k + 1])).bad
    ensures |Flatten(arrivals[..k])| + |arrivals[k]|
         >= |Flatten(arrivals)| - |Parse(Flatten(arrivals)).tail| + HEADER_SIZE
  {
    hide FromLE;
    var s, upTo := Flatten(arrivals), Flatten(arrivals[..k + 1]);
    assert arrivals == arrivals[..k + 1] + arrivals[k + 1..];
    FlattenAppend(arrivals[..k + 1], arrivals[k + 1..]);
    assert s[..|upTo|] == upTo;
    RefusedAtTwelfthByte(s, |upTo|);
    assert arrivals[..k + 1] == arrivals[..k] + [arrivals[k]];
    FlattenSnoc(arrivals[..k], arrivals[k]);
  }

  /** The loss is real: a packet followed by a bad header, arriving together, is
      never handed on, and is when they arrive apart. */
  lemma GroupedArrivalLosesAPacket(p: Packet, bad: seq<Byte>)
    requires LegalPacket(p)
    requires |bad| >= HEADER_SIZE && !LegalHeader(Captured(bad), Size(bad))
    ensures Read([Encode(p) + bad]).delivered == []
    ensures Read([Encode(p), bad]).delivered == [p]
  {
    ParseOne(p, bad);
    assert Parse(bad) == Parsed([], bad, true);
    ParseOne(p, []);
    assert Encode(p) + [] == Encode(p);
    ReadOne(Encode(p) + bad);
    ReadOne(Encode(p));
    var two := [Encode(p), bad];
    assert two[..1] == [Encode(p)];
    assert [] + bad == bad;
  }

  lemma ReadOne(s: seq<Byte>)
    ensures Read([s]) == if Parse(s).bad then Reading([], Parse(s).tail, Some(0))
                         else Reading(Parse(s).packets, Parse(s).tail, None)
  {
    assert [s][..0] == [];
    assert [] + s == s;
    assert [] + Parse(s).packets == Parse(s).packets;
  }

  // ---- the recorder loop -----------------------------------------------------

  /** One look at the pipe: the bytes it finds, none when the recorder is quiet, and then
      whether the recorder has exited. */
  datatype Look = Look(data: seq<Byte>, exited: bool)

  /** How the loop ends: it is told to stop, a header or a clock is refused, or the
      recorder exits, inside a packet or not. */
  datatype Outcome = Stopped | BadHeader | BadClock | InsideAPacket | Exited

  /** The arrivals up to the exit of the recorder. */
  function Arrivals(looks: seq<Look>): seq<seq<Byte>> {
    if looks == [] || Exits(looks[0]) then []
    else (if looks[0].data == [] then [] else [looks[0].data]) + Arrivals(looks[1..])
  }

  predicate Exits(look: Look) {
    look.data == [] && look.exited
  }

  predicate Ends(looks: seq<Look>) {
    looks != [] && (Exits(looks[0]) || Ends(looks[1..]))
  }

  /** The capture is a tenth of a second ahead of the clock the loop reads at most, and thirty
      seconds behind at most; in milliseconds. */
  predicate OnTheClock(now: real, p: Packet) {
    -100.0 <= now * 1000.0 - p.captured as real / 1000.0 <= 30000.0
  }

  /** The same, by the microsecond the packet says it was captured at. */
  predicate CapturedBetween(now: real, captured: nat) {
    now * 1_000_000.0 - 30_000_000.0 <= captured as real <= now * 1_000_000.0 + 100_000.0
  }

  lemma ClockIs(now: real, p: Packet)
    ensures OnTheClock(now, p) <==> CapturedBetween(now, p.captured)
  {
  }

  /** What a loop hands on and how it ends, for what there was to read: the packets of the
      stream up to the first whose clock is refused; `now` is the clock when the k-th packet
      is looked at. */
  ghost predicate Drained(read: Reading, ended: bool, now: nat -> real, delivered: seq<Packet>, outcome: Outcome) {
    && delivered <= read.delivered
    && (forall k :: 0 <= k < |delivered| ==> CapturedBetween(now(k), delivered[k].captured))
    && (outcome.BadClock? <==> |delivered| < |read.delivered|)
    && (outcome.BadClock? ==> !CapturedBetween(now(|delivered|), read.delivered[|delivered|].captured))
    && (!outcome.BadClock? ==>
          outcome == if read.refused.Some? then BadHeader else if !ended then Stopped
                     else if read.pending == [] then Exited else InsideAPacket)
  }

  /** Hands on packets until the clock of one is refused. */
  method HandOn(before: seq<Packet>, packets: seq<Packet>, now: nat -> real)
      returns (delivered: seq<Packet>, stale: bool)
    requires forall k :: 0 <= k < |before| ==> CapturedBetween(now(k), before[k].captured)
    ensures before <= delivered <= before + packets
    ensures forall k :: 0 <= k < |delivered| ==> CapturedBetween(now(k), delivered[k].captured)
    ensures !stale ==> delivered == before + packets
    ensures stale ==> && |delivered| < |before + packets|
                      && !CapturedBetween(now(|delivered|), (before + packets)[|delivered|].captured)
  {
    hide OnTheClock, CapturedBetween;
    delivered := before;
    for k := 0 to |packets|
      invariant delivered == before + packets[..k]
      invariant forall j :: 0 <= j < |delivered| ==> CapturedBetween(now(j), delivered[j].captured)
    {
      ClockIs(now(|delivered|), packets[k]);
      if !OnTheClock(now(|delivered|), packets[k]) {
        return delivered, true;
      }
      delivered := delivered + [packets[k]];
    }
    return delivered, false;
  }

  /** Feeds every arrival and hands on what comes out, until something is refused or the
      recorder exits (spikes/switch-room/capture.py). */
  method Drain(looks: seq<Look>, now: nat -> real) returns (delivered: seq<Packet>, outcome: Outcome)
    ensures Drained(Read(Arrivals(looks)), Ends(looks), now, delivered, outcome)
  {
    hide Parse, Arrivals, Ends, CapturedBetween, Read;
    var reader := new Packets();
    delivered := [];
    ghost var done, all: seq<seq<Byte>> := [], Arrivals(looks);
    var n := 0;
    NoLook();
    assert looks[0..] == looks;
    while n < |looks|
      invariant 0 <= n <= |looks| && fresh(reader) && reader.Valid()
      invariant all == done + Arrivals(looks[n..]) && (Ends(looks) <==> Ends(looks[n..]))
      invariant Read(done) == Reading(delivered, reader.Pending(), None)
      invariant forall k :: 0 <= k < |delivered| ==> CapturedBetween(now(k), delivered[k].captured)
    {
      NextLook(looks, n);
      var look := looks[n];
      n := n + 1;
      if look.data == [] {
        if look.exited {
          assert done + [] == done;
          var end := reader.Finish();
          return delivered, if end.Ok? then Exited else InsideAPacket;
        }
        continue;
      }
      assert done + ([look.data] + Arrivals(looks[n..])) == done + [look.data] + Arrivals(looks[n..]);
      ReadOneMore(done, look.data);
      done := done + [look.data];
      ReadGrows(all, done);
      var r := reader.Feed(look.data);
      if r.Err? {
        return delivered, BadHeader;
      }
      var stale: bool;
      delivered, stale := HandOn(delivered, r.value, now);
      if stale {
        assert Read(done).delivered[|delivered|] == Read(all).delivered[|delivered|];
        return delivered, BadClock;
      }
    }
    assert looks[n..] == [] && done + [] == done;
    return delivered, Stopped;
  }

  /** The pipe is read up to the first look that finds it empty and the recorder gone, whatever
      exits were seen while it still held bytes; and each byte found before is read. */
  lemma {:induction false} ReadUpToTheExit(looks: seq<Look>) returns (n: nat)
    ensures n <= |looks| && (forall i :: 0 <= i < n ==> looks[i].data != [] || !looks[i].exited)
    ensures n < |looks| ==> looks[n].data == [] && looks[n].exited
    ensures Ends(looks) <==> n < |looks|
    ensures Flatten(Arrivals(looks)) == Flatten(Data(looks[..n]))
    ensures [] !in Arrivals(looks)
  {
    n := 0;
    if looks != [] && !(looks[0].data == [] && looks[0].exited) {
      var rest := ReadUpToTheExit(looks[1..]);
      n := rest + 1;
      assert looks[..n][1..] == looks[1..][..rest];
      FlattenAppend(if looks[0].data == [] then [] else [looks[0].data], Arrivals(looks[1..]));
      FlattenAppend([looks[0].data], Data(looks[1..n]));
      assert looks[1..][..rest] == looks[1..n];
    }
  }

  function Data(looks: seq<Look>): seq<seq<Byte>> {
    if looks == [] then [] else [looks[0].data] + Data(looks[1..])
  }

  lemma NoLook()
    ensures Arrivals([]) == [] && !Ends([]) && Read([]) == Reading([], [], None)
  {
  }

  lemma NextLook(looks: seq<Look>, n: nat)
    requires n < |looks|
    ensures Exits(looks[n]) ==> Arrivals(looks[n..]) == [] && Ends(looks[n..])
    ensures !Exits(looks[n]) ==>
              && Arrivals(looks[n..])
                 == (if looks[n].data == [] then [] else [looks[n].data]) + Arrivals(looks[n + 1..])
              && (Ends(looks[n..]) <==> Ends(looks[n + 1..]))
  {
    assert looks[n..][1..] == looks[n + 1..];
  }

  lemma ReadOneMore(done: seq<seq<Byte>>, data: seq<Byte>)
    requires Read(done).refused.None?
    ensures var whole := Parse(Read(done).pending + data);
            Read(done + [data])
            == if whole.bad then Reading(Read(done).delivered, whole.tail, Some(|done|))
               else Reading(Read(done).delivered + whole.packets, whole.tail, None)
  {
    hide Parse;
    assert (done + [data])[..|done|] == done;
  }

  /** What was read of the first arrivals stays read; a refusal is final. */
  lemma {:induction false} ReadGrows(arrivals: seq<seq<Byte>>, early: seq<seq<Byte>>)
    requires early <= arrivals
    ensures Read(early).delivered <= Read(arrivals).delivered
    ensures Read(early).refused.Some? ==> Read(arrivals) == Read(early)
    decreases |arrivals|
  {
    hide Parse;
    if arrivals != early {
      ReadGrows(arrivals[..|arrivals| - 1], early);
    }
  }
}
