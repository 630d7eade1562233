/** The save export a Wii writes to a card: its headers, its padding and the walk over
    its records (tools/wii-save-decode.py). */
module WiiSave {
  import opened Common
  import opened CbcCipher

  const FILE_MAGIC: Bytes := [0x03, 0xad, 0xf1, 0x7e]
  const BK_HEADER: Bytes := [0x00, 0x00, 0x00, 0x70, 0x42, 0x6b, 0x00, 0x01]
  const BANNER_MAGIC: Bytes := [0x57, 0x49, 0x42, 0x4e]

  /** The fields of a record's header, in order. */
  const HEADER_SIZE := 0x80
  const LENGTH_AT := 4
  const KIND_AT := 0x0A
  const NAME_AT := 0x0B
  const NAME_LEN := 0x45
  const IV_AT := 0x50
  const IV_LEN := 0x10
  const TAIL_LEN := 0x20

  /** The vector starts where the name ends, and the fields fill the header. */
  lemma FieldsTile()
    ensures LENGTH_AT + 4 + 2 == KIND_AT && KIND_AT + 1 == NAME_AT
    ensures NAME_AT + NAME_LEN == IV_AT && IV_AT + IV_LEN + TAIL_LEN == HEADER_SIZE
  {
  }

  /** A length brought up to a multiple of 64. */
  function Rounded(n: nat): (r: nat)
    ensures r % 64 == 0 && r % BLOCK == 0 && n <= r < n + 64
  {
    Multiple((n + 0x3F) / 64);
    (n + 0x3F) / 64 * 64
  }

  lemma Multiple(k: nat)
    ensures (k * 64) % 64 == 0 && (k * 64) % BLOCK == 0
  {
    assert k * 64 == (k * 4) * BLOCK;
  }

  lemma RoundedIsLeast(n: nat, m: nat)
    requires m % 64 == 0 && n <= m
    ensures Rounded(n) <= m
  {
  }

  // ---- reading ---------------------------------------------------------------

  datatype Entry = Folder(name: string) | Stored(name: string, payload: Bytes)

  datatype Error = NotASave | WrongGame | NotARecord(at: nat) | CutShort

  function Least(a: nat, b: nat): nat {
    if a < b then a else b
  }

  /** A slice that stops at the end of the data. */
  function Slice(raw: Bytes, from: nat, to: nat): (r: Bytes)
    requires from <= to
    ensures |r| == Least(to, |raw|) - Least(from, |raw|)
  {
    raw[Least(from, |raw|)..Least(to, |raw|)]
  }

  function UpToNul(field: Bytes): Bytes {
    if field == [] || field[0] == 0 then [] else [field[0]] + UpToNul(field[1..])
  }

  /** Each byte that is not ASCII becomes one replacement character. */
  function Decoded(bytes: Bytes): string {
    if bytes == [] then []
    else [if bytes[0] < 128 then bytes[0] as char else '\U{FFFD}'] + Decoded(bytes[1..])
  }

  /** The record at a position, and where the next one is. Bytes that are missing from
      a name or a payload are not an error. */
  function ReadRecord(c: Cipher, raw: Bytes, at: nat): (r: Result<(Entry, nat), Error>)
    requires Blocks(c)
    ensures r.Ok? ==> r.value.1 >= at + HEADER_SIZE && at + 4 <= |raw|
    ensures r.Err? ==> r.error == NotARecord(at) || r.error == CutShort
  {
    if Slice(raw, at, at + 4) != FILE_MAGIC then Err(NotARecord(at))
    else if |raw| < at + NAME_AT then Err(CutShort)
    else
      var length := FromBE(raw[at + LENGTH_AT..at + LENGTH_AT + 4]);
      var name := Decoded(UpToNul(Slice(raw, at + NAME_AT, at + NAME_AT + NAME_LEN)));
      var iv := Slice(raw, at + IV_AT, at + IV_AT + IV_LEN);
      var body := at + HEADER_SIZE;
      if raw[at + KIND_AT] == 2 then Ok((Folder(name), body))
      else if |iv| != IV_LEN then Err(CutShort)
      else
        var plain := Decrypt(c, Slice(raw, body, body + Rounded(length)), iv);
        Ok((Stored(name, Slice(plain, 0, length)), body + Rounded(length)))
  }

  /** The records from a position on, as the loop finds them. */
  function Records(c: Cipher, raw: Bytes, at: nat, count: nat): (r: Result<seq<Entry>, Error>)
    requires Blocks(c)
    ensures r.Ok? ==> |r.value| == count
    ensures r.Err? ==> r.error.NotARecord? || r.error == CutShort
    decreases count
  {
    if count == 0 then Ok([])
    else
      var first := ReadRecord(c, raw, at);
      if first.Err? then Err(first.error)
      else
        var rest := Records(c, raw, first.value.1, count - 1);
        if rest.Err? then rest else Ok([first.value.0] + rest.value)
  }

  /** One character for each byte. */
  lemma {:induction false} DecodedIs(bytes: Bytes)
    ensures |Decoded(bytes)| == |bytes|
    ensures forall i :: 0 <= i < |bytes| ==>
              Decoded(bytes)[i] == if bytes[i] <= 0x7F then bytes[i] as char else '\U{FFFD}'
  {
    if bytes != [] {
      DecodedIs(bytes[1..]);
    }
  }

  /** A name ends before its first zero, or with its field. */
  lemma {:induction false} UpToNulIs(field: Bytes)
    ensures UpToNul(field) <= field && 0 !in UpToNul(field)
    ensures |UpToNul(field)| < |field| ==> field[|UpToNul(field)|] == 0
  {
    if field != [] && field[0] != 0 {
      UpToNulIs(field[1..]);
    }
  }

  lemma MarkOf(c: Cipher, raw: Bytes, at: nat)
    requires Blocks(c)
    ensures ReadRecord(c, raw, at).Ok? ==> at + 4 <= |raw| && raw[at..at + 4] == FILE_MAGIC
    ensures ReadRecord(c, raw, at) == Err(NotARecord(at)) ==> |raw| < at + 4 || raw[at..at + 4] != FILE_MAGIC
  {
  }

  /** A file is read only when each of its records, wherever the one before says it is, bears
      the mark of one; and what is said to be no record does not bear it. */
  lemma {:induction false} EveryRecordIsMarked(c: Cipher, raw: Bytes, at: nat, count: nat) returns (places: seq<nat>)
    requires Blocks(c)
    ensures var r := Records(c, raw, at, count);
            && (r.Ok? ==> |places| == count && (count > 0 ==> places[0] == at))
            && (forall i :: 0 <= i < |places| ==>
                  places[i] + 4 <= |raw| && raw[places[i]..places[i] + 4] == FILE_MAGIC
                  && (i + 1 < |places| ==> places[i + 1] >= places[i] + HEADER_SIZE))
            && (r.Err? && r.error.NotARecord? ==>
                  |raw| < r.error.at + 4 || raw[r.error.at..r.error.at + 4] != FILE_MAGIC)
    decreases count
  {
    hide ReadRecord, FILE_MAGIC;
    places := [];
    if count > 0 {
      MarkOf(c, raw, at);
      var first := ReadRecord(c, raw, at);
      if first.Ok? {
        var rest := EveryRecordIsMarked(c, raw, first.value.1, count - 1);
        if Records(c, raw, at, count).Ok? {
          places := [at] + rest;
        }
      }
    }
  }

  method Walk(c: Cipher, raw: Bytes, start: nat, count: nat) returns (r: Result<seq<Entry>, Error>)
    requires Blocks(c)
    ensures r == Records(c, raw, start, count)
  {
    hide ReadRecord;
    var entries, at := [], start;
    ghost var all := Records(c, raw, start, count);
    assert all.Ok? ==> entries + all.value == all.value;
    for i := 0 to count
      invariant at >= start + i * HEADER_SIZE
      invariant Records(c, raw, start, count)
        == (var rest := Records(c, raw, at, count - i); if rest.Err? then rest else Ok(entries + rest.value))
    {
      var record := ReadRecord(c, raw, at);
      if record.Err? {
        return Err(record.error);
      }
      ghost var rest := Records(c, raw, record.value.1, count - i - 1);
      assert rest.Ok? ==> entries + ([record.value.0] + rest.value) == entries + [record.value.0] + rest.value;
      entries, at := entries + [record.value.0], record.value.1;
    }
    assert entries + [] == entries;
    return Ok(entries);
  }

  // ---- writing ---------------------------------------------------------------

  /** A record with everything a reader does not look at: the gap after the length, the
      bytes after the name's end, the tail, the padding. */
  datatype Record = Record(entry: Entry, length: nat, gap: Bytes, kind: Byte, filler: Bytes, iv: Bytes,
                           tail: Bytes, padding: Bytes)

  ghost predicate PlainName(name: string) {
    |name| <= NAME_LEN && forall i :: 0 <= i < |name| ==> 0 < name[i] as int < 128
  }

  ghost predicate Legal(r: Record) {
    && r.length < Pow256(4) && |r.gap| == 2 && |r.iv| == IV_LEN && |r.tail| == TAIL_LEN
    && PlainName(r.entry.name) && |NameField(r)| == NAME_LEN
    && (r.entry.Folder? <==> r.kind == 2)
    && (r.entry.Stored? ==> r.length == |r.entry.payload| && |r.padding| == Rounded(r.length) - r.length)
  }

  function Bytes8(name: string): Bytes
    requires forall i :: 0 <= i < |name| ==> name[i] as int < 128
  {
    seq(|name|, i requires 0 <= i < |name| => name[i] as int)
  }

  /** The name and, when it does not fill its field, a NUL and whatever was there. */
  function NameField(r: Record): Bytes
    requires PlainName(r.entry.name)
  {
    Bytes8(r.entry.name) + (if |r.entry.name| < NAME_LEN then [0] + r.filler else [])
  }

  function Header(r: Record): (h: Bytes)
    requires Legal(r)
    ensures |h| == HEADER_SIZE
  {
    FILE_MAGIC + ToBE(r.length, 4) + r.gap + [r.kind] + NameField(r) + r.iv + r.tail
  }

  function Body(c: Cipher, r: Record): (b: Bytes)
    requires Legal(r) && Blocks(c)
    ensures |b| == if r.entry.Folder? then 0 else Rounded(r.length)
  {
    if r.entry.Folder? then [] else Encrypt(c, r.entry.payload + r.padding, r.iv)
  }

  function Stream(c: Cipher, records: seq<Record>): Bytes
    requires Blocks(c) && forall i :: 0 <= i < |records| ==> Legal(records[i])
  {
    if records == [] then [] else Header(records[0]) + Body(c, records[0]) + Stream(c, records[1..])
  }

  function Entries(records: seq<Record>): seq<Entry> {
    seq(|records|, i requires 0 <= i < |records| => records[i].entry)
  }

  lemma {:induction false} NameComesBack(name: string, filler: Bytes)
    requires forall i :: 0 <= i < |name| ==> 0 < name[i] as int < 128
    ensures Decoded(UpToNul(Bytes8(name) + [0] + filler)) == name
    ensures Decoded(UpToNul(Bytes8(name))) == name
  {
    var field := Bytes8(name) + [0] + filler;
    if name == [] {
      assert field[0] == 0;
    } else {
      NameComesBack(name[1..], filler);
      assert Bytes8(name)[1..] == Bytes8(name[1..]);
      assert field[1..] == Bytes8(name[1..]) + [0] + filler;
      var first := [Bytes8(name)[0]];
      assert (first + UpToNul(field[1..]))[1..] == UpToNul(field[1..]);
      assert (first + UpToNul(Bytes8(name)[1..]))[1..] == UpToNul(Bytes8(name)[1..]);
      assert [name[0]] + name[1..] == name;
    }
  }

  // ---- the walk reads back what is written -----------------------------------

  lemma FieldsOfHeader(r: Record)
    requires Legal(r)
    ensures var h := Header(r);
            && h[..4] == FILE_MAGIC && h[LENGTH_AT..LENGTH_AT + 4] == ToBE(r.length, 4) && h[KIND_AT] == r.kind
            && h[NAME_AT..NAME_AT + NAME_LEN] == NameField(r) && h[IV_AT..IV_AT + IV_LEN] == r.iv
  {
    hide ToBE;
    var start := FILE_MAGIC + ToBE(r.length, 4) + r.gap + [r.kind];
    var name := NameField(r);
    hide NameField;
    assert Header(r) == start + name + (r.iv + r.tail);
    assert start[..4] == FILE_MAGIC && start[LENGTH_AT..LENGTH_AT + 4] == ToBE(r.length, 4);
    assert |start| == NAME_AT && start[KIND_AT] == r.kind;
  }

  /** A part of a part. */
  lemma PartOfPart(raw: Bytes, at: nat, part: Bytes, from: nat, to: nat)
    requires at + |part| <= |raw| && raw[at..at + |part|] == part && from <= to <= |part|
    ensures raw[at + from..at + to] == part[from..to]
    ensures Slice(raw, at + from, at + to) == part[from..to]
    ensures forall i :: 0 <= i < |part| ==> raw[at + i] == part[i]
  {
    forall i | 0 <= i < |part|
      ensures raw[at + i] == part[i]
    {
      assert raw[at..at + |part|][i] == part[i];
    }
  }

  lemma NameReadsBack(r: Record)
    requires Legal(r)
    ensures Decoded(UpToNul(NameField(r))) == r.entry.name
  {
    hide Decoded, UpToNul;
    NameComesBack(r.entry.name, r.filler);
    if |r.entry.name| < NAME_LEN {
      assert Bytes8(r.entry.name) + ([0] + r.filler) == Bytes8(r.entry.name) + [0] + r.filler;
    } else {
      assert Bytes8(r.entry.name) + [] == Bytes8(r.entry.name);
    }
  }

  lemma BodyReadsBack(c: Cipher, r: Record)
    requires Legal(r) && Sound(c) && r.entry.Stored?
    ensures Blocks(c) && Slice(Decrypt(c, Body(c, r), r.iv), 0, r.length) == r.entry.payload
  {
    hide Sound, Decrypt, Encrypt;
    DecryptInverts(c, r.entry.payload + r.padding, r.iv);
  }

  /** A whole header is read for what it says; the body is whatever follows. */
  lemma HeaderReadsBack(c: Cipher, raw: Bytes, at: nat, r: Record)
    requires Legal(r) && Blocks(c)
    requires at + HEADER_SIZE <= |raw| && raw[at..at + HEADER_SIZE] == Header(r)
    ensures |r.iv| == BLOCK
    ensures ReadRecord(c, raw, at) ==
            if r.entry.Folder? then Ok((r.entry, at + HEADER_SIZE))
            else
              var next := at + HEADER_SIZE + Rounded(r.length);
              var plain := Decrypt(c, Slice(raw, at + HEADER_SIZE, next), r.iv);
              Ok((Stored(r.entry.name, Slice(plain, 0, r.length)), next))
  {
    hide Decrypt, Header, NameField, Decoded, UpToNul, FromBE, ToBE, Legal, Slice, Rounded;
    FieldsOfHeader(r);
    NameReadsBack(r);
    FromToBE4(r);
    LegalIs(r);
    PartOfPart(raw, at, Header(r), 0, 4);
    PartOfPart(raw, at, Header(r), LENGTH_AT, LENGTH_AT + 4);
    PartOfPart(raw, at, Header(r), NAME_AT, NAME_AT + NAME_LEN);
    PartOfPart(raw, at, Header(r), IV_AT, IV_AT + IV_LEN);
  }

  /** A record written somewhere is read there, with its name, its payload and the
      place of the next. */
  lemma RecordReadsBack(c: Cipher, raw: Bytes, at: nat, r: Record)
    requires Legal(r) && Sound(c) && Blocks(c)
    requires at + HEADER_SIZE + |Body(c, r)| <= |raw|
    requires raw[at..at + HEADER_SIZE] == Header(r)
    requires raw[at + HEADER_SIZE..at + HEADER_SIZE + |Body(c, r)|] == Body(c, r)
    ensures ReadRecord(c, raw, at) == Ok((r.entry, at + HEADER_SIZE + |Body(c, r)|))
  {
    hide Sound, Decrypt, Body, Header, Legal, Slice, ReadRecord;
    HeaderReadsBack(c, raw, at, r);
    BodyLength(c, r);
    PartOfPart(raw, at + HEADER_SIZE, Body(c, r), 0, |Body(c, r)|);
    if r.entry.Stored? {
      BodyReadsBack(c, r);
    }
  }

  lemma LegalIs(r: Record)
    requires Legal(r)
    ensures |r.iv| == IV_LEN && (r.entry.Folder? <==> r.kind == 2)
  {
  }

  lemma BodyLength(c: Cipher, r: Record)
    requires Legal(r) && Blocks(c)
    ensures Body(c, r)[0..|Body(c, r)|] == Body(c, r)
    ensures |Body(c, r)| == if r.entry.Folder? then 0 else Rounded(r.length)
  {
  }

  lemma FromToBE4(r: Record)
    requires Legal(r)
    ensures FromBE(ToBE(r.length, 4)) == r.length
  {
    FromToBE(r.length, 4);
  }

  /** The walk over written records gives every name and payload back. */
  lemma {:induction false} WalkReadsBack(c: Cipher, raw: Bytes, at: nat, records: seq<Record>)
    requires Sound(c) && Blocks(c) && forall i :: 0 <= i < |records| ==> Legal(records[i])
    requires at + |Stream(c, records)| <= |raw| && raw[at..at + |Stream(c, records)|] == Stream(c, records)
    ensures Records(c, raw, at, |records|) == Ok(Entries(records))
    decreases |records|
  {
    hide Sound, Legal, Header, Body, ReadRecord;
    if records != [] {
      var first, rest := records[0], records[1..];
      FirstReadsBack(c, raw, at, first, Stream(c, rest));
      WalkReadsBack(c, raw, at + HEADER_SIZE + |Body(c, first)|, rest);
      assert Entries(records) == [first.entry] + Entries(rest);
    }
  }

  lemma FirstReadsBack(c: Cipher, raw: Bytes, at: nat, r: Record, more: Bytes)
    requires Legal(r) && Sound(c) && Blocks(c)
    requires var all := Header(r) + Body(c, r) + more; at + |all| <= |raw| && raw[at..at + |all|] == all
    ensures |Header(r)| == HEADER_SIZE
    ensures ReadRecord(c, raw, at) == Ok((r.entry, at + HEADER_SIZE + |Body(c, r)|))
    ensures var next := at + HEADER_SIZE + |Body(c, r)|; raw[next..next + |more|] == more
  {
    hide Sound, Legal, Header, Body, ReadRecord;
    HeaderLength(r);
    var all, width := Header(r) + Body(c, r) + more, HEADER_SIZE + |Body(c, r)|;
    assert all[..HEADER_SIZE] == Header(r) && all[HEADER_SIZE..width] == Body(c, r) && all[width..] == more;
    PartOfPart(raw, at, all, 0, HEADER_SIZE);
    PartOfPart(raw, at, all, HEADER_SIZE, width);
    PartOfPart(raw, at, all, width, |all|);
    RecordReadsBack(c, raw, at, r);
  }

  // ---- data that is cut short ------------------------------------------------

  function LengthAt(raw: Bytes, at: nat): nat
    requires at + LENGTH_AT + 4 <= |raw|
  {
    FromBE(raw[at + LENGTH_AT..at + LENGTH_AT + 4])
  }

  /** How many bytes of a body are there. */
  function Available(raw: Bytes, body: nat, length: nat): nat {
    |Slice(raw, body, body + Rounded(length))|
  }

  /** A payload comes out whole exactly when the blocks that hold it are all there;
      otherwise it is shorter, and no error says so. */
  lemma PayloadIsWholeIff(c: Cipher, raw: Bytes, at: nat)
    requires Blocks(c) && ReadRecord(c, raw, at).Ok? && ReadRecord(c, raw, at).value.0.Stored?
    ensures at + NAME_AT <= |raw|
    ensures var length := LengthAt(raw, at);
            |ReadRecord(c, raw, at).value.0.payload| == length
            <==> length <= Keep(Available(raw, at + HEADER_SIZE, length))
  {
    hide Decrypt, FromBE;
  }

  /** Only the last payload can be cut: a record after it proves the one before whole. */
  lemma OnlyTheLastIsCut(c: Cipher, raw: Bytes, at: nat)
    requires Blocks(c) && ReadRecord(c, raw, at).Ok? && ReadRecord(c, raw, at).value.0.Stored?
    requires ReadRecord(c, raw, ReadRecord(c, raw, at).value.1).Ok?
    ensures at + NAME_AT <= |raw| && |ReadRecord(c, raw, at).value.0.payload| == LengthAt(raw, at)
  {
    PayloadIsWholeIff(c, raw, at);
    hide Decrypt, FromBE;
    var length := LengthAt(raw, at);
    var next := at + HEADER_SIZE + Rounded(length);
    assert ReadRecord(c, raw, at).value.1 == next;
    assert next + 4 <= |raw|;
  }

  /** A file cut right after its last header is read without a word, its last payload
      empty. */
  lemma ACutFileIsRead(c: Cipher, r: Record)
    requires Legal(r) && Blocks(c) && r.entry.Stored?
    ensures Records(c, Header(r), 0, 1) == Ok([Stored(r.entry.name, [])])
  {
    hide Header, ReadRecord, Legal;
    CutRecord(c, r);
    var h := Header(r);
    var first, rest := ReadRecord(c, h, 0), Records(c, h, ReadRecord(c, h, 0).value.1, 0);
    assert rest == Ok([]) && [first.value.0] + [] == [first.value.0];
  }

  lemma CutRecord(c: Cipher, r: Record)
    requires Legal(r) && Blocks(c) && r.entry.Stored?
    ensures ReadRecord(c, Header(r), 0).Ok? && ReadRecord(c, Header(r), 0).value.0 == Stored(r.entry.name, [])
  {
    hide Decrypt, Header, Legal, ReadRecord;
    var h := Header(r);
    assert h[0..HEADER_SIZE] == h;
    HeaderReadsBack(c, h, 0, r);
    var plain := Decrypt(c, Slice(h, HEADER_SIZE, HEADER_SIZE + Rounded(r.length)), r.iv);
    assert |plain| == 0 && Slice(plain, 0, r.length) == [];
  }

  /** How much of a record has to be there for it to be read at all. */
  function Needed(r: Record): nat {
    if r.entry.Folder? then NAME_AT else IV_AT + IV_LEN
  }

  /** What the first bytes of a record are read as: a name cut like its field, a payload of
      the whole blocks that are there. */
  function CutEntry(r: Record, n: nat): Entry
    requires n >= Needed(r) && (r.entry.Stored? ==> r.length == |r.entry.payload|)
  {
    match r.entry
    case Folder(name) => Folder(name[..Least(|name|, n - NAME_AT)])
    case Stored(name, payload) =>
      var there := if n < HEADER_SIZE then 0 else Least(n - HEADER_SIZE, Rounded(r.length));
      Stored(name, payload[..Least(r.length, Keep(there))])
  }

  lemma {:induction false} CutName(name: string, after: Bytes, n: nat)
    requires forall i :: 0 <= i < |name| ==> 0 < name[i] as int < 128
    requires (after == [] || after[0] == 0) && n <= |name| + |after|
    ensures Decoded(UpToNul((Bytes8(name) + after)[..n])) == name[..Least(|name|, n)]
  {
    var field := (Bytes8(name) + after)[..n];
    if name != "" && n > 0 {
      CutName(name[1..], after, n - 1);
      assert field[0] == name[0] as int && field[1..] == (Bytes8(name[1..]) + after)[..n - 1];
      var rest := UpToNul(field[1..]);
      assert ([field[0]] + rest)[1..] == rest;
      assert name[..Least(|name|, n)] == [name[0]] + name[1..][..Least(|name| - 1, n - 1)];
    } else {
      assert field == [] || field[0] == 0;
    }
  }

  /** The fields that the first bytes of a record hold. */
  lemma CutFields(r: Record, body: Bytes, n: nat)
    requires Legal(r) && n <= HEADER_SIZE + |body|
    ensures var part := (Header(r) + body)[..n];
            && (n >= 4 ==> part[..4] == FILE_MAGIC)
            && (n >= NAME_AT ==>
                  && part[LENGTH_AT..LENGTH_AT + 4] == ToBE(r.length, 4) && part[KIND_AT] == r.kind
                  && part[NAME_AT..Least(n, IV_AT)] == NameField(r)[..Least(n, IV_AT) - NAME_AT])
            && (n >= IV_AT + IV_LEN ==> part[IV_AT..IV_AT + IV_LEN] == r.iv)
            && (n >= HEADER_SIZE ==> part[HEADER_SIZE..] == body[..n - HEADER_SIZE])
  {
    hide ToBE, Header, NameField, Legal;
    FieldsOfHeader(r);
    FieldsTile();
    var h := Header(r);
    var part := (h + body)[..n];
    if n >= NAME_AT {
      SameFront(h, body, n, LENGTH_AT, LENGTH_AT + 4);
      SameFront(h, body, n, NAME_AT, Least(n, IV_AT));
      assert h[NAME_AT..Least(n, IV_AT)] == h[NAME_AT..NAME_AT + NAME_LEN][..Least(n, IV_AT) - NAME_AT];
    }
    if n >= IV_AT + IV_LEN {
      SameFront(h, body, n, IV_AT, IV_AT + IV_LEN);
    }
    if n >= 4 {
      SameFront(h, body, n, 0, 4);
    }
  }

  lemma SameFront(h: Bytes, body: Bytes, n: nat, from: nat, to: nat)
    requires from <= to <= |h| && to <= n <= |h| + |body|
    ensures (h + body)[..n][from..to] == h[from..to]
  {
  }

  lemma NameIsCut(r: Record, n: nat)
    requires Legal(r) && n <= NAME_LEN
    ensures Decoded(UpToNul(NameField(r)[..n])) == r.entry.name[..Least(|r.entry.name|, n)]
  {
    CutName(r.entry.name, if |r.entry.name| < NAME_LEN then [0] + r.filler else [], n);
  }

  lemma PayloadIsCut(c: Cipher, r: Record, n: nat)
    requires Legal(r) && Sound(c) && Blocks(c) && r.entry.Stored? && n <= |Body(c, r)|
    ensures |r.iv| == BLOCK && r.length == |r.entry.payload|
    ensures Slice(Decrypt(c, Body(c, r)[..n], r.iv), 0, r.length) == r.entry.payload[..Least(r.length, Keep(n))]
  {
    hide Sound, Decrypt, Encrypt;
    DecryptInverts(c, r.entry.payload + r.padding, r.iv);
    DecryptBeginning(c, Body(c, r), n, r.iv);
  }

  /** Reading at a place is reading the end of the file from there. */
  lemma ReadTheEnd(c: Cipher, raw: Bytes, at: nat)
    requires Blocks(c) && at <= |raw|
    ensures var r := ReadRecord(c, raw[at..], 0);
            ReadRecord(c, raw, at) == if r.Ok? then Ok((r.value.0, at + r.value.1))
                                      else Err(if r.error.NotARecord? then NotARecord(at) else r.error)
  {
    hide Decrypt, Decoded, UpToNul, FromBE, Rounded, FILE_MAGIC;
    var end := raw[at..];
    SliceOfEnd(raw, at, 0, 4);
    SliceOfEnd(raw, at, NAME_AT, NAME_AT + NAME_LEN);
    SliceOfEnd(raw, at, IV_AT, IV_AT + IV_LEN);
    if |end| >= NAME_AT {
      PartOfEnd(raw, at, LENGTH_AT, LENGTH_AT + 4);
      PartOfEnd(raw, at, KIND_AT, KIND_AT + 1);
      SliceOfEnd(raw, at, HEADER_SIZE, HEADER_SIZE + Rounded(FromBE(end[LENGTH_AT..LENGTH_AT + 4])));
    }
  }

  lemma PartOfEnd(raw: Bytes, at: nat, from: nat, to: nat)
    requires from < to && at + to <= |raw|
    ensures raw[at + from..at + to] == raw[at..][from..to] && raw[at + from] == raw[at..][from]
  {
  }

  lemma SliceOfEnd(raw: Bytes, at: nat, from: nat, to: nat)
    requires at <= |raw| && from <= to
    ensures Slice(raw, at + from, at + to) == Slice(raw[at..], from, to)
  {
  }

  lemma MagicLength()
    ensures |FILE_MAGIC| == 4
  {
  }

  /** Fewer bytes of a record than are needed are not one. */
  lemma TooLittle(c: Cipher, r: Record, n: nat)
    requires Legal(r) && Blocks(c) && n < Needed(r)
    ensures ReadRecord(c, (Header(r) + Body(c, r))[..n], 0).Err?
  {
    hide Decrypt, Header, NameField, Decoded, UpToNul, FromBE, ToBE, Legal, Rounded, Body, FILE_MAGIC;
    var part := (Header(r) + Body(c, r))[..n];
    MagicLength();
    LegalIs(r);
    CutFields(r, Body(c, r), n);
    assert n < 4 ==> |Slice(part, 0, 4)| < 4;
    assert |Slice(part, IV_AT, IV_AT + IV_LEN)| < IV_LEN;
  }

  lemma CutFolder(c: Cipher, r: Record, n: nat)
    requires Legal(r) && Blocks(c) && r.entry.Folder? && Needed(r) <= n <= HEADER_SIZE
    ensures ReadRecord(c, Header(r)[..n], 0) == Ok((CutEntry(r, n), HEADER_SIZE))
  {
    hide Decrypt, Header, NameField, Decoded, UpToNul, FromBE, ToBE, Legal, FILE_MAGIC;
    var part := Header(r)[..n];
    assert Header(r) + [] == Header(r);
    MagicLength();
    LegalIs(r);
    CutFields(r, [], n);
    NameIsCut(r, Least(n, IV_AT) - NAME_AT);
    assert Slice(part, 0, 4) == part[..4];
    assert Slice(part, NAME_AT, NAME_AT + NAME_LEN) == part[NAME_AT..Least(n, IV_AT)];
    assert part[0 + KIND_AT] == r.kind;
    NameFits(r);
  }

  lemma NameFits(r: Record)
    requires Legal(r)
    ensures |r.entry.name| <= NAME_LEN && (r.entry.Stored? ==> r.length == |r.entry.payload|)
  {
  }

  lemma CutStored(c: Cipher, r: Record, n: nat)
    requires Legal(r) && Sound(c) && Blocks(c) && r.entry.Stored? && Needed(r) <= n <= HEADER_SIZE + |Body(c, r)|
    ensures r.length == |r.entry.payload|
    ensures ReadRecord(c, (Header(r) + Body(c, r))[..n], 0) == Ok((CutEntry(r, n), HEADER_SIZE + |Body(c, r)|))
  {
    hide Decrypt, Header, NameField, Decoded, UpToNul, FromBE, ToBE, Legal, Rounded, Body, Sound, FILE_MAGIC;
    var part := (Header(r) + Body(c, r))[..n];
    MagicLength();
    LegalIs(r);
    FromToBE4(r);
    BodyLength(c, r);
    CutFields(r, Body(c, r), n);
    NameIsCut(r, NAME_LEN);
    NameFits(r);
    assert r.entry.name[..|r.entry.name|] == r.entry.name;
    var there := if n < HEADER_SIZE then 0 else n - HEADER_SIZE;
    PayloadIsCut(c, r, there);
    assert Slice(part, 0, 4) == part[..4];
    assert Slice(part, NAME_AT, NAME_AT + NAME_LEN) == part[NAME_AT..IV_AT];
    assert Slice(part, IV_AT, IV_AT + IV_LEN) == part[IV_AT..IV_AT + IV_LEN];
    assert Slice(part, HEADER_SIZE, HEADER_SIZE + Rounded(r.length)) == Body(c, r)[..there];
    assert part[0 + LENGTH_AT..0 + LENGTH_AT + 4] == part[LENGTH_AT..LENGTH_AT + 4] && part[0 + KIND_AT] == r.kind;
  }

  /** The first bytes of a record at the end of a file: it is read exactly when enough of it
      is there. */
  lemma CutRecordIff(c: Cipher, raw: Bytes, at: nat, r: Record, n: nat)
    requires Legal(r) && Sound(c) && Blocks(c) && |raw| == at + n && n <= HEADER_SIZE + |Body(c, r)|
    requires raw[at..] == (Header(r) + Body(c, r))[..n]
    ensures r.entry.Stored? ==> r.length == |r.entry.payload|
    ensures n < Needed(r) ==> ReadRecord(c, raw, at).Err?
    ensures n >= Needed(r) ==> ReadRecord(c, raw, at) == Ok((CutEntry(r, n), at + HEADER_SIZE + |Body(c, r)|))
  {
    hide Header, Legal, Body, Sound, ReadRecord, CutEntry;
    ReadTheEnd(c, raw, at);
    NameFits(r);
    if n < Needed(r) {
      TooLittle(c, r, n);
    } else if r.entry.Folder? {
      BodyLength(c, r);
      assert Header(r) + Body(c, r) == Header(r);
      CutFolder(c, r, n);
    } else {
      CutStored(c, r, n);
    }
  }

  /** Where the last of some records starts. */
  function LastStart(c: Cipher, records: seq<Record>): nat
    requires Blocks(c) && records != [] && forall i :: 0 <= i < |records| ==> Legal(records[i])
  {
    |Stream(c, records[..|records| - 1])|
  }

  /** The rest of the records starts after the first. */
  lemma StartsLater(c: Cipher, records: seq<Record>)
    requires Blocks(c) && |records| > 1 && forall i :: 0 <= i < |records| ==> Legal(records[i])
    ensures LastStart(c, records) == HEADER_SIZE + |Body(c, records[0])| + LastStart(c, records[1..])
    ensures records[1..][|records| - 2] == records[|records| - 1]
  {
    hide Legal, Body;
    var early := records[..|records| - 1];
    assert early[1..] == records[1..][..|records| - 2] && early[0] == records[0];
    HeaderLength(records[0]);
  }

  lemma HeaderLength(r: Record)
    requires Legal(r)
    ensures |Header(r)| == HEADER_SIZE
  {
  }

  lemma OneRecord(c: Cipher, raw: Bytes, at: nat, r: Record, n: nat)
    requires Legal(r) && Sound(c) && Blocks(c) && |raw| == at + n && n <= HEADER_SIZE + |Body(c, r)|
    requires raw[at..] == (Header(r) + Body(c, r))[..n]
    ensures r.entry.Stored? ==> r.length == |r.entry.payload|
    ensures n < Needed(r) ==> Records(c, raw, at, 1).Err?
    ensures n >= Needed(r) ==> Records(c, raw, at, 1) == Ok([CutEntry(r, n)])
  {
    hide Legal, Sound, ReadRecord, Needed, CutEntry, Header, Body;
    CutRecordIff(c, raw, at, r, n);
    if n >= Needed(r) {
      var next := at + HEADER_SIZE + |Body(c, r)|;
      assert Records(c, raw, next, 0) == Ok([]) && [CutEntry(r, n)] + [] == [CutEntry(r, n)];
    }
  }

  lemma OnlyOne(c: Cipher, records: seq<Record>)
    requires Blocks(c) && |records| == 1 && Legal(records[0])
    ensures LastStart(c, records) == 0
    ensures forall e :: Entries(records[..|records| - 1]) + [e] == [e]
  {
    assert records[..0] == [] && Entries([]) == [];
  }

  /** When the file ends inside a record, none after it can be read. */
  lemma CutBefore(c: Cipher, raw: Bytes, at: nat, r: Record, n: nat, more: nat)
    requires Legal(r) && Sound(c) && Blocks(c) && |raw| == at + n && n < HEADER_SIZE + |Body(c, r)| && more > 0
    requires raw[at..] == (Header(r) + Body(c, r))[..n]
    ensures Records(c, raw, at, 1 + more).Err?
  {
    hide Legal, Sound, Needed, CutEntry, Header, Body;
    CutRecordIff(c, raw, at, r, n);
    var next := at + HEADER_SIZE + |Body(c, r)|;
    MagicLength();
    assert |Slice(raw, next, next + 4)| == 0;
    assert ReadRecord(c, raw, next).Err?;
    hide ReadRecord;
    assert Records(c, raw, next, more).Err?;
  }

  lemma WholeFirst(c: Cipher, raw: Bytes, at: nat, r: Record, all: Bytes, n: nat)
    requires Legal(r) && Sound(c) && Blocks(c) && HEADER_SIZE + |Body(c, r)| <= n <= |all| && |raw| == at + n
    requires Header(r) + Body(c, r) <= all && raw[at..] == all[..n]
    ensures ReadRecord(c, raw, at) == Ok((r.entry, at + HEADER_SIZE + |Body(c, r)|))
    ensures raw[at + HEADER_SIZE + |Body(c, r)|..] == all[..n][HEADER_SIZE + |Body(c, r)|..]
  {
    hide Legal, Sound, ReadRecord, Header, Body;
    HeaderLength(r);
    var width := HEADER_SIZE + |Body(c, r)|;
    var part := raw[at..];
    assert part[..HEADER_SIZE] == all[..HEADER_SIZE] == Header(r);
    assert part[HEADER_SIZE..width] == all[HEADER_SIZE..width] == Body(c, r);
    PartOfPart(raw, at, part, 0, HEADER_SIZE);
    PartOfPart(raw, at, part, HEADER_SIZE, width);
    RecordReadsBack(c, raw, at, r);
  }

  lemma JoinEntries(records: seq<Record>, last: Entry)
    requires |records| > 1
    ensures [records[0].entry] + (Entries(records[1..][..|records| - 2]) + [last])
            == Entries(records[..|records| - 1]) + [last]
  {
    assert Entries(records[..|records| - 1]) == [records[0].entry] + Entries(records[1..][..|records| - 2]);
  }

  /** A file that ends after the first `n` bytes of some written records is read without an
      error if and only if enough of the last one is there: its header up to the name for a
      folder, up to the end of the vector for a file. Every entry before the last comes out
      as it was written; the last is what its bytes make of it. */
  lemma {:induction false} CutStreamIff(c: Cipher, raw: Bytes, at: nat, records: seq<Record>, n: nat)
    requires Sound(c) && Blocks(c) && records != [] && forall i :: 0 <= i < |records| ==> Legal(records[i])
    requires n <= |Stream(c, records)| && |raw| == at + n && raw[at..] == Stream(c, records)[..n]
    ensures var last, start := records[|records| - 1], LastStart(c, records);
            && (last.entry.Stored? ==> last.length == |last.entry.payload|)
            && (n < start + Needed(last) ==> Records(c, raw, at, |records|).Err?)
            && (n >= start + Needed(last) ==>
                  Records(c, raw, at, |records|)
                  == Ok(Entries(records[..|records| - 1]) + [CutEntry(last, n - start)]))
    decreases |records|
  {
    hide Sound, Legal, Header, Body, ReadRecord, CutEntry, Needed;
    var first, rest := records[0], records[1..];
    var width := HEADER_SIZE + |Body(c, first)|;
    var all := Stream(c, records);
    NameFits(records[|records| - 1]);
    assert all == Header(first) + Body(c, first) + Stream(c, rest);
    if rest == [] {
      OneRecord(c, raw, at, first, n);
      OnlyOne(c, records);
    } else {
      StartsLater(c, records);
      if n < width {
        assert (Header(first) + Body(c, first))[..n] == all[..n];
        CutBefore(c, raw, at, first, n, |rest|);
      } else {
        WholeFirst(c, raw, at, first, all, n);
        HeaderLength(first);
        assert all[width..] == Stream(c, rest) && all[..n][width..] == all[width..][..n - width];
        CutStreamIff(c, raw, at + width, rest, n - width);
        var k := |records| - 1;
        if n >= LastStart(c, records) + Needed(records[k]) {
          JoinEntries(records, CutEntry(records[k], n - LastStart(c, records)));
        }
      }
    }
  }

  // ---- the whole export ------------------------------------------------------

  ghost predicate FoundAt(raw: Bytes, pattern: Bytes, i: nat) {
    i + |pattern| <= |raw| && raw[i..i + |pattern|] == pattern
  }

  /** The first place of a pattern, if it is anywhere. */
  method Find(raw: Bytes, pattern: Bytes) returns (at: Option<nat>)
    ensures at.Some? ==> FoundAt(raw, pattern, at.value) && forall i :: 0 <= i < at.value ==> !FoundAt(raw, pattern, i)
    ensures at.None? ==> forall i :: 0 <= i ==> !FoundAt(raw, pattern, i)
  {
    var i: nat := 0;
    while i + |pattern| <= |raw|
      invariant forall k :: 0 <= k < i ==> !FoundAt(raw, pattern, k)
    {
      if raw[i..i + |pattern|] == pattern {
        return Some(i);
      }
      i := i + 1;
    }
    return None;
  }

  /** The first `Bk` header of an export, which is not at its start. */
  ghost predicate BkAt(raw: Bytes, at: nat) {
    0 < at && FoundAt(raw, BK_HEADER, at) && forall i :: 0 <= i < at ==> !FoundAt(raw, BK_HEADER, i)
  }

  ghost predicate NoBk(raw: Bytes) {
    FoundAt(raw, BK_HEADER, 0) || forall i :: 0 <= i ==> !FoundAt(raw, BK_HEADER, i)
  }

  function TitleOf(c: Cipher, raw: Bytes, iv: Bytes): nat
    requires Blocks(c) && |iv| == BLOCK && |raw| >= BLOCK
  {
    FromBE(Decrypt(c, Slice(raw, 0, 0x20), iv)[..8])
  }

  function BannerSize(c: Cipher, raw: Bytes, iv: Bytes): nat
    requires Blocks(c) && |iv| == BLOCK && |raw| >= BLOCK
  {
    FromBE(Decrypt(c, Slice(raw, 0, 0x20), iv)[8..12])
  }

  /** The title and the count of files a `Bk` header holds. */
  function BkTitle(raw: Bytes, at: nat): nat
    requires at + 0x68 <= |raw|
  {
    FromBE(raw[at + 0x60..at + 0x68])
  }

  function BkCount(raw: Bytes, at: nat): nat
    requires at + 0x68 <= |raw|
  {
    FromBE(raw[at + 0x0C..at + 0x10])
  }

  datatype Save = Save(title: nat, banner: Option<Bytes>, entries: seq<Entry>)

  /** The announced banner, when it is one. */
  function Banner(c: Cipher, raw: Bytes, size: nat, iv: Bytes): Option<Bytes>
    requires Blocks(c) && |iv| == BLOCK
  {
    var banner := Slice(Decrypt(c, Slice(raw, 0, 0x20 + size), iv), 0x20, 0x20 + size);
    if |banner| >= 4 && banner[..4] == BANNER_MAGIC then Some(banner) else None
  }

  /** Opens an export: the encrypted header, the banner, the `Bk` header wherever it
      is, and the records. A save comes out exactly when the headers are whole and name
      the same game and the records can be read. */
  method Open(c: Cipher, raw: Bytes, iv: Bytes) returns (r: Result<Save, Error>)
    requires Blocks(c) && |iv| == BLOCK
    ensures |raw| < BLOCK ==> r == Err(CutShort)
    ensures |raw| >= BLOCK && NoBk(raw) ==> r == Err(NotASave)
    ensures |raw| >= BLOCK && !NoBk(raw) ==> exists at :: BkAt(raw, at) && OpenedAt(c, raw, iv, at, r)
  {
    hide Decrypt, FromBE, Records, Slice;
    SliceLength(raw, 0, 0x20);
    var head := Decrypt(c, Slice(raw, 0, 0x20), iv);
    if |head| < 12 {
      return Err(CutShort);
    }
    var title, banner := FromBE(head[..8]), Banner(c, raw, FromBE(head[8..12]), iv);
    var found := Find(raw, BK_HEADER);
    if found.None? || found.value == 0 {
      return Err(NotASave);
    }
    var at := found.value;
    assert BkAt(raw, at);
    if |raw| < at + 0x68 {
      return Err(CutShort);
    }
    if FromBE(raw[at + 0x60..at + 0x68]) != title {
      return Err(WrongGame);
    }
    var records := Walk(c, raw, at + HEADER_SIZE, FromBE(raw[at + 0x0C..at + 0x10]));
    if records.Err? {
      return Err(records.error);
    }
    return Ok(Save(title, banner, records.value));
  }

  /** What an export with a `Bk` header opens as. */
  ghost predicate OpenedAt(c: Cipher, raw: Bytes, iv: Bytes, at: nat, r: Result<Save, Error>)
    requires Blocks(c) && |iv| == BLOCK && |raw| >= BLOCK
  {
    if |raw| < at + 0x68 then r == Err(CutShort)
    else if BkTitle(raw, at) != TitleOf(c, raw, iv) then r == Err(WrongGame)
    else
      var records := Records(c, raw, at + HEADER_SIZE, BkCount(raw, at));
      if records.Err? then r == Err(records.error)
      else r == Ok(Save(TitleOf(c, raw, iv), Banner(c, raw, BannerSize(c, raw, iv), iv), records.value))
  }

  lemma SliceLength(raw: Bytes, from: nat, to: nat)
    requires from <= to
    ensures |Slice(raw, from, to)| == Least(to, |raw|) - Least(from, |raw|)
  {
  }

  // ---- a written export opens as what it was -----------------------------------

  /** What the encrypted beginning of an export says: the title, the size of the banner, what
      no reader looks at, and the banner. */
  function Opening(title: nat, filler: Bytes, banner: Bytes): Bytes
    requires title < Pow256(8) && |banner| < Pow256(4) && |filler| == 0x14
  {
    ToBE(title, 8) + ToBE(|banner|, 4) + filler + banner
  }

  /** A `Bk` header: its magic, the count of files, the title, and what no reader looks at. */
  function BkBytes(count: nat, title: nat, before: Bytes, between: Bytes, after: Bytes): (b: Bytes)
    requires count < Pow256(4) && title < Pow256(8) && |before| == 4 && |between| == 0x50 && |after| == 0x18
    ensures |b| == HEADER_SIZE
  {
    BK_HEADER + before + ToBE(count, 4) + between + ToBE(title, 8) + after
  }

  lemma OpeningReadsBack(c: Cipher, raw: Bytes, iv: Bytes, title: nat, filler: Bytes, banner: Bytes)
    requires Sound(c) && |iv| == BLOCK
    requires title < Pow256(8) && |banner| < Pow256(4) && |filler| == 0x14 && |banner| % BLOCK == 0
    requires Blocks(c) && Encrypt(c, Opening(title, filler, banner), iv) <= raw
    ensures |raw| >= 0x20 && TitleOf(c, raw, iv) == title && BannerSize(c, raw, iv) == |banner|
    ensures Banner(c, raw, |banner|, iv)
            == if |banner| >= 4 && banner[..4] == BANNER_MAGIC then Some(banner) else None
  {
    hide Decrypt, Encrypt, Opening, Sound, ToBE, FromBE, Slice;
    var plain := Opening(title, filler, banner);
    var blob := Encrypt(c, plain, iv);
    OpeningIs(title, filler, banner);
    KeepAll(|plain|);
    KeepAll(0x20);
    DecryptInverts(c, plain, iv);
    DecryptBeginning(c, blob, 0x20, iv);
    SliceOfFront(raw, blob, 0x20);
    SliceOfFront(raw, blob, |blob|);
    assert blob[..|blob|] == blob;
    FromToBE(title, 8);
    FromToBE(|banner|, 4);
  }

  lemma OpeningIs(title: nat, filler: Bytes, banner: Bytes)
    requires title < Pow256(8) && |banner| < Pow256(4) && |filler| == 0x14 && |banner| % BLOCK == 0
    ensures var plain := Opening(title, filler, banner);
            && |plain| == 0x20 + |banner| && |plain| % BLOCK == 0
            && plain[..0x20][..8] == ToBE(title, 8) && plain[..0x20][8..12] == ToBE(|banner|, 4)
            && Slice(plain, 0x20, 0x20 + |banner|) == banner
  {
    hide ToBE;
  }

  lemma SliceOfFront(raw: Bytes, blob: Bytes, n: nat)
    requires blob <= raw && n <= |blob|
    ensures Slice(raw, 0, n) == blob[..n]
  {
  }

  lemma KeepAll(n: nat)
    requires n % BLOCK == 0
    ensures Keep(n) == n
  {
  }

  lemma BkReadsBack(raw: Bytes, at: nat, count: nat, title: nat, before: Bytes, between: Bytes, after: Bytes)
    requires count < Pow256(4) && title < Pow256(8) && |before| == 4 && |between| == 0x50 && |after| == 0x18
    requires at + HEADER_SIZE <= |raw|
    requires raw[at..at + HEADER_SIZE] == BkBytes(count, title, before, between, after)
    ensures BkTitle(raw, at) == title && BkCount(raw, at) == count
  {
    hide ToBE, FromBE;
    var b := BkBytes(count, title, before, between, after);
    assert b[0x60..0x68] == ToBE(title, 8) && b[0x0C..0x10] == ToBE(count, 4);
    PartOfPart(raw, at, b, 0x60, 0x68);
    PartOfPart(raw, at, b, 0x0C, 0x10);
    FromToBE(title, 8);
    FromToBE(count, 4);
  }

  /** An export written with a title, a banner and some records, wherever its `Bk` header and
      its records stand, opens as exactly those; with another title in its `Bk` header it is
      refused as another game's. */
  lemma AnExportReadsBack(c: Cipher, raw: Bytes, iv: Bytes, at: nat, title: nat, filler: Bytes, banner: Bytes,
                          bkTitle: nat, before: Bytes, between: Bytes, after: Bytes, records: seq<Record>,
                          r: Result<Save, Error>)
    requires Sound(c) && Blocks(c) && |iv| == BLOCK && forall i :: 0 <= i < |records| ==> Legal(records[i])
    requires title < Pow256(8) && |banner| < Pow256(4) && |filler| == 0x14 && |banner| % BLOCK == 0
    requires |records| < Pow256(4) && bkTitle < Pow256(8) && |before| == 4 && |between| == 0x50 && |after| == 0x18
    requires Encrypt(c, Opening(title, filler, banner), iv) <= raw && BkAt(raw, at)
    requires at + HEADER_SIZE + |Stream(c, records)| <= |raw|
    requires raw[at..at + HEADER_SIZE] == BkBytes(|records|, bkTitle, before, between, after)
    requires raw[at + HEADER_SIZE..at + HEADER_SIZE + |Stream(c, records)|] == Stream(c, records)
    ensures |raw| >= BLOCK
    ensures OpenedAt(c, raw, iv, at, r) ==>
              r == if bkTitle != title then Err(WrongGame)
                   else Ok(Save(title, if |banner| >= 4 && banner[..4] == BANNER_MAGIC then Some(banner) else None,
                                Entries(records)))
  {
    hide Sound, Encrypt, Decrypt, Opening, BkBytes, Stream, Records, BkTitle, BkCount, TitleOf, BannerSize, Banner,
      Legal;
    OpeningReadsBack(c, raw, iv, title, filler, banner);
    BkReadsBack(raw, at, |records|, bkTitle, before, between, after);
    WalkReadsBack(c, raw, at + HEADER_SIZE, records);
  }
}
