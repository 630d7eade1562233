/** The day-rotated event log (control/nel3ab_control/journal.py), over the buffered text
    handle it keeps open: a write that fails leaves in the handle what it had accepted, and
    a later write or close may still put it in the file. */
module Journal {
  import opened Common

  const NEWLINE: Byte := 10

  // ---- the handle ------------------------------------------------------------

  /** An open handle: the bytes accepted and not in the file, and how much of the buffer
      is used; room comes back only when all of it got through. A closed one takes
      nothing. */
  datatype Handle = Handle(closed: bool, pending: seq<Byte>, used: nat)

  const EMPTY := Handle(false, [], 0)

  /** What a write to a handle does: the bytes that reach the file, the handle after it,
      and whether it returned. */
  datatype Push = Push(through: seq<Byte>, handle: Handle, ok: bool)

  /** Everything accepted goes out, until the system has taken what it will take. */
  function Flushed(h: Handle, takes: nat): Push {
    if takes >= |h.pending| then Push(h.pending, EMPTY, true)
    else Push(h.pending[..takes], h.(pending := h.pending[takes..]), false)
  }

  /** A line joins the buffer and all of it goes out. One that does not fit waits for the
      buffer to go out first, and is lost when that fails; one longer than the whole
      buffer goes out by itself, and what is left of it is kept only when it fits. */
  function Put(h: Handle, bytes: seq<Byte>, takes: nat, room: nat): Push {
    if h.used + |bytes| <= room && |bytes| < room then
      Flushed(Handle(false, h.pending + bytes, h.used + |bytes|), takes)
    else if takes < |h.pending| then Flushed(h, takes)
    else
      var left := takes - |h.pending|;
      if left >= |bytes| then Push(h.pending + bytes, EMPTY, true)
      else if |bytes| - left <= room then
        Push(h.pending + bytes[..left],
             Handle(false, bytes[left..], if |bytes| <= room then |bytes| else |bytes| - left), false)
      else Push(h.pending + bytes[..left], EMPTY, false)
  }

  /** The line is in the buffer or in the file, whole. */
  predicate Enters(h: Handle, bytes: seq<Byte>, takes: nat, room: nat) {
    (h.used + |bytes| <= room && |bytes| < room)
    || (takes >= |h.pending| && (takes - |h.pending| >= |bytes| || |bytes| - (takes - |h.pending|) <= room))
  }

  /** The line is cut: a part of it is in the file and the rest is nowhere. */
  predicate Tears(h: Handle, bytes: seq<Byte>, takes: nat, room: nat) {
    !Enters(h, bytes, takes, room) && takes > |h.pending|
  }

  /** A write that returned put all it had in the file; one that did not put a beginning
      there; nothing is lost but a line that did not enter. */
  lemma PutConserves(h: Handle, bytes: seq<Byte>, takes: nat, room: nat)
    requires !h.closed
    ensures var p := Put(h, bytes, takes, room);
            && !p.handle.closed
            && (p.ok ==> p.through == h.pending + bytes && p.handle.pending == [] && Enters(h, bytes, takes, room))
            && (p.ok <==> takes >= |h.pending + bytes|)
            && (!p.ok ==> p.through == (h.pending + bytes)[..takes])
            && (Enters(h, bytes, takes, room) ==> p.through + p.handle.pending == h.pending + bytes)
            && (!Enters(h, bytes, takes, room) && !Tears(h, bytes, takes, room) ==>
                  p.through + p.handle.pending == h.pending)
  {
  }

  /** What waits is within what is used of the buffer, and that within its room. */
  predicate Holds(h: Handle, room: nat) {
    |h.pending| <= h.used <= room && (h.pending == [] <==> h.used == 0)
  }

  /** The buffer is never over its room, and what a line used of it comes back only when all
      that waits has gone out. */
  lemma RoomComesBack(h: Handle, bytes: seq<Byte>, takes: nat, room: nat)
    requires Holds(h, room) && bytes != []
    ensures var after := Put(h, bytes, takes, room).handle;
            && Holds(after, room)
            && (after.pending != [] && takes < |h.pending| ==> after.used >= h.used)
            && (after.pending != [] && Enters(h, bytes, takes, room) && |bytes| <= room ==> after.used >= |bytes|)
            && (after.pending != [] && takes < |h.pending| && Enters(h, bytes, takes, room) ==>
                  after.used == h.used + |bytes|)
  {
  }

  // ---- the files -------------------------------------------------------------

  /** A `.jsonl` file: the one this log opens for a day, or any other, with the
      day its stem reads as in case it is a date too. */
  datatype FileName = Daily(day: int) | Named(stem: string, date: Option<int>)

  function ReadsAs(name: FileName): Option<int> {
    match name
    case Daily(day) => Some(day)
    case Named(_, date) => date
  }

  /** What the system answers to one call: how many bytes it takes while the old file is
      closed and whether closing raises all the same, the folder, the opening, how many
      bytes it takes of the write, the listing, and the files it will not remove. */
  datatype Luck = Luck(closing: nat, closes: bool, folder: bool, opening: bool, takes: nat, listing: bool,
                       stuck: set<FileName>)

  /** One call: the local date of the event, its JSON line (which has no raw
      newline), and what the system answers. */
  datatype Event = Event(day: int, line: seq<Byte>, luck: Luck)

  /** How many days are kept, and how many bytes a handle buffers. */
  datatype Config = Config(keeps: nat, room: nat)

  /** The files, the day and the handle that are kept, and the losses counted. */
  datatype Log = Log(files: map<FileName, seq<Byte>>, kept: Option<(int, Handle)>, dropped: nat)

  /** What becomes of a call: it returns, it is counted as lost, or it raises. */
  datatype Outcome = Written | Dropped | Raised

  function Content(files: map<FileName, seq<Byte>>, day: int): seq<Byte> {
    if Daily(day) in files then files[Daily(day)] else []
  }

  function Appended(files: map<FileName, seq<Byte>>, day: int, bytes: seq<Byte>): map<FileName, seq<Byte>> {
    files[Daily(day) := Content(files, day) + bytes]
  }

  predicate TooOld(name: FileName, today: int, keeps: nat) {
    ReadsAs(name).Some? && ReadsAs(name).value < today - (keeps - 1)
  }

  /** The files a sweep leaves. */
  function Swept(files: map<FileName, seq<Byte>>, today: int, keeps: nat, luck: Luck): map<FileName, seq<Byte>> {
    if !luck.listing then files
    else map name | name in files && (TooOld(name, today, keeps) ==> name in luck.stuck) :: files[name]
  }

  /** A sweep never removes a file whose name is not a date, nor one of the last
      `keeps` days; with at least one day kept, never the day it sweeps for. */
  lemma SweepSpares(files: map<FileName, seq<Byte>>, today: int, keeps: nat, luck: Luck, name: FileName)
    requires name in files
    ensures ReadsAs(name).None? ==> name in Swept(files, today, keeps, luck)
    ensures ReadsAs(name).Some? && ReadsAs(name).value > today - keeps ==> name in Swept(files, today, keeps, luck)
    ensures name in Swept(files, today, keeps, luck) ==> Swept(files, today, keeps, luck)[name] == files[name]
    ensures keeps >= 1 && name == Daily(today) ==> name in Swept(files, today, keeps, luck)
  {
  }

  /** It takes every other date-named file that can be removed, as long as the files can be
      listed. */
  lemma SweepTakesIff(files: map<FileName, seq<Byte>>, today: int, keeps: nat, luck: Luck, name: FileName)
    requires name in files
    ensures name !in Swept(files, today, keeps, luck)
            <==> luck.listing && name !in luck.stuck && exists day :: ReadsAs(name) == Some(day) && day <= today - keeps
  {
    if ReadsAs(name).Some? {
      assert ReadsAs(name) == Some(ReadsAs(name).value);
    }
  }

  // ---- one call --------------------------------------------------------------

  /** The day of the event is the day kept. */
  predicate SameDay(log: Log, e: Event) {
    log.kept.Some? && log.kept.value.0 == e.day
  }

  /** The day kept has a handle a failed close left closed: a write to it raises. */
  predicate Stuck(log: Log, e: Event) {
    SameDay(log, e) && log.kept.value.1.closed
  }

  /** A change of day closes a live handle. */
  predicate ClosesOne(log: Log, e: Event) {
    log.kept.Some? && log.kept.value.0 != e.day && !log.kept.value.1.closed
  }

  /** What goes through while the old file is closed. */
  function LastBytes(log: Log, e: Event): seq<Byte>
    requires log.kept.Some?
  {
    var pending := log.kept.value.1.pending;
    pending[..if e.luck.closing < |pending| then e.luck.closing else |pending|]
  }

  /** Closing raises; the handle is closed all the same. */
  predicate CloseRaises(log: Log, e: Event) {
    ClosesOne(log, e) && (!e.luck.closes || e.luck.closing < |log.kept.value.1.pending|)
  }

  /** The log once whatever was kept of another day is closed. A close that raises keeps
      its day and its closed handle. */
  function Closed(log: Log, e: Event): Log {
    if !ClosesOne(log, e) then log.(kept := None)
    else
      var day := log.kept.value.0;
      log.(files := Appended(log.files, day, LastBytes(log, e)),
           kept := if CloseRaises(log, e) then Some((day, Handle(true, [], 0))) else None)
  }

  /** The log with the file of the event's day at hand, or as far as it got. */
  function Opened(log: Log, e: Event, keeps: nat): (r: (Log, bool)) {
    if SameDay(log, e) then (log, true)
    else if CloseRaises(log, e) || !(e.luck.folder && e.luck.opening) then (Closed(log, e), false)
    else
      var closed := Closed(log, e);
      (closed.(files := Swept(Appended(closed.files, e.day, []), e.day, keeps, e.luck), kept := Some((e.day, EMPTY))),
       true)
  }

  function Bytes(e: Event): seq<Byte> {
    e.line + [NEWLINE]
  }

  function Wrote(log: Log, e: Event, cfg: Config): (r: (Log, Outcome)) {
    var (ready, ok) := Opened(log, e, cfg.keeps);
    if !ok then (ready.(dropped := ready.dropped + 1), Dropped)
    else if Stuck(log, e) then (ready, Raised)
    else
      var p := Put(ready.kept.value.1, Bytes(e), e.luck.takes, cfg.room);
      (ready.(files := Appended(ready.files, e.day, p.through), kept := Some((e.day, p.handle)),
              dropped := if p.ok then ready.dropped else ready.dropped + 1),
       if p.ok then Written else Dropped)
  }

  /** A change of day sweeps: once the file of another day is open, no file that could be
      removed is older than the kept days; no other call removes any. */
  lemma AChangeOfDaySweeps(log: Log, e: Event, cfg: Config, name: FileName)
    ensures !SameDay(log, e) && Opened(log, e, cfg.keeps).1 && e.luck.listing && cfg.keeps >= 1
            && name in Wrote(log, e, cfg).0.files && name !in e.luck.stuck && ReadsAs(name).Some?
            ==> ReadsAs(name).value > e.day - cfg.keeps
    ensures SameDay(log, e) || !Opened(log, e, cfg.keeps).1 ==>
              (name in log.files ==> name in Wrote(log, e, cfg).0.files)
    ensures !SameDay(log, e) && Opened(log, e, cfg.keeps).1 <==>
              !SameDay(log, e) && !CloseRaises(log, e) && e.luck.folder && e.luck.opening
  {
    hide Put;
  }

  /** What the kept handle always satisfies: a closed one holds nothing. */
  ghost predicate Consistent(log: Log) {
    log.kept.Some? && log.kept.value.1.closed ==> log.kept.value.1.pending == []
  }

  lemma StaysConsistent(log: Log, e: Event, cfg: Config)
    requires Consistent(log)
    ensures Consistent(Wrote(log, e, cfg).0)
  {
  }

  class Journal {
    const cfg: Config
    var files: map<FileName, seq<Byte>>
    var day: Option<int>
    var file: Option<Handle>
    var dropped: nat
    var complained: bool

    ghost predicate Valid()
      reads this
    {
      && cfg.keeps >= 1 && (day.Some? <==> file.Some?)
      && Consistent(Value()) && (complained <==> dropped > 0)
    }

    ghost function Value(): Log
      reads this
    {
      Log(files, if day.Some? && file.Some? then Some((day.value, file.value)) else None, dropped)
    }

    constructor (keeps: int, room: nat, files: map<FileName, seq<Byte>>)
      ensures Valid() && Value() == Log(files, None, 0)
      ensures cfg == Config(if keeps < 1 then 1 else keeps, room)
    {
      cfg := Config(if keeps < 1 then 1 else keeps, room);
      this.files := files;
      day, file, dropped, complained := None, None, 0, false;
    }

    /** One event: a line put through the handle of its own day, or one more loss, or an
        error of a handle that a failed close left closed. */
    method Write(e: Event) returns (outcome: Outcome)
      requires Valid()
      modifies this
      ensures Valid()
      ensures (Value(), outcome) == Wrote(old(Value()), e, cfg)
    {
      hide Put, Enters, Swept;
      StaysConsistent(Value(), e, cfg);
      var ready := Open(e);
      if !ready {
        dropped, complained := dropped + 1, true;
        return Dropped;
      }
      if file.value.closed {
        return Raised;
      }
      var p := Put(file.value, Bytes(e), e.luck.takes, cfg.room);
      files := Appended(files, e.day, p.through);
      file := Some(p.handle);
      if p.ok {
        return Written;
      }
      dropped, complained := dropped + 1, true;
      return Dropped;
    }

    /** The file of the day, kept open; a change of day closes, opens and sweeps. */
    method Open(e: Event) returns (ok: bool)
      requires Valid()
      modifies `files, `day, `file
      ensures day.Some? <==> file.Some?
      ensures (Value(), ok) == Opened(old(Value()), e, cfg.keeps)
      ensures ok ==> day == Some(e.day)
    {
      hide Swept;
      if day != Some(e.day) || file.None? {
        var raised := Close(e.luck);
        if raised || !(e.luck.folder && e.luck.opening) {
          return false;
        }
        files := Appended(files, e.day, []);
        file := Some(EMPTY);
        day := Some(e.day);
        var gone := Sweep(e.day, e.luck);
      }
      return true;
    }

    /** Closes what is kept. A handle that cannot put out what it holds is closed all the
        same, but stays kept, with its day. */
    method Close(luck: Luck) returns (raised: bool)
      requires day.Some? <==> file.Some?
      modifies `files, `day, `file
      ensures day.Some? <==> file.Some?
      ensures raised <==> old(file.Some?) && !old(file.value.closed)
                          && (!luck.closes || luck.closing < |old(file.value.pending)|)
      ensures raised ==> day == old(day) && file == Some(Handle(true, [], 0))
      ensures !raised ==> day == None && file == None
      ensures files == if old(file.None?) || old(file.value.closed) then old(files)
                       else
                         var pending := old(file.value.pending);
                         var n := if luck.closing < |pending| then luck.closing else |pending|;
                         Appended(old(files), old(day.value), pending[..n])
    {
      raised := false;
      if file.Some? && !file.value.closed {
        var pending := file.value.pending;
        var n := if luck.closing < |pending| then luck.closing else |pending|;
        files := Appended(files, day.value, pending[..n]);
        if !luck.closes || luck.closing < |pending| {
          file := Some(Handle(true, [], 0));
          return true;
        }
      }
      file := None;
      day := None;
    }

    /** Forgets the days older than the kept range, and only those. */
    method Sweep(today: int, luck: Luck) returns (gone: set<FileName>)
      modifies `files
      ensures files == Swept(old(files), today, cfg.keeps, luck)
      ensures gone == old(files).Keys - files.Keys
    {
      gone := {};
      if !luck.listing {
        return;
      }
      var found := files.Keys;
      while found != {}
        invariant found <= old(files).Keys && gone !! found && gone <= old(files).Keys
        invariant files == map name | name in old(files) && name !in gone :: old(files)[name]
        invariant forall name :: name in old(files) && name !in found ==>
            (name in gone <==> TooOld(name, today, cfg.keeps) && name !in luck.stuck)
        decreases found
      {
        var path :| path in found;
        found := found - {path};
        if !TooOld(path, today, cfg.keeps) || path in luck.stuck {
          continue;
        }
        files := files - {path};
        gone := gone + {path};
      }
    }
  }
}
