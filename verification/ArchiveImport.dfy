/** A downloaded archive, from its title to the banks of its container: what is refused
    before anything is touched, and what an import then writes
    (docker/switch-saves.py, import_save). */
module ArchiveImport {
  import opened Common
  import opened FileTree
  import opened SaveArchive
  import opened SaveSlots
  import opened SwitchSaves
  import opened PendingSave
  import opened BankSwap
  import opened SaveImport

  const ARCHIVE_LIMIT := 40_000_000
  const FILE_LIMIT := 12_000_000
  const TOTAL_LIMIT := 24_000_000
  const COUNT_LIMIT := 64

  /** A downloaded archive: its size, the names of its entries and what each expands to. */
  datatype Archive = Archive(size: nat, names: seq<string>, contents: seq<seq<Byte>>)

  /** Why nothing was touched. */
  datatype Why =
    | NoRule | ArchiveTooLarge | BadChoice(why: Refusal) | TooManyFiles | FileTooLarge | SaveTooLarge | NoContainer

  datatype Verdict = NotTaken(why: Why) | Taken(outcome: ImportOutcome, kept: BackedUp)

  // ---- titles ----------------------------------------------------------------

  function LowerDigit(c: char): char {
    if 'A' <= c <= 'F' then (c as int + 32) as char else c
  }

  function Lower(title: string): string {
    seq(|title|, i requires 0 <= i < |title| => LowerDigit(title[i]))
  }

  predicate HexDigit(c: char) {
    '0' <= c <= '9' || 'a' <= c <= 'f' || 'A' <= c <= 'F'
  }

  predicate Title(title: string) {
    |title| == 16 && forall i :: 0 <= i < 16 ==> HexDigit(title[i])
  }

  function Number(title: string): nat
    requires forall i :: 0 <= i < |title| ==> HexDigit(title[i])
  {
    if title == "" then 0
    else
      assert HexDigit(title[|title| - 1]);
      var c := LowerDigit(title[|title| - 1]);
      16 * Number(title[..|title| - 1]) + if c <= '9' then c as int - '0' as int else c as int - 'a' as int + 10
  }

  // ---- what is chosen --------------------------------------------------------

  /** The bytes each destination gets. */
  function Payloads(archive: Archive, picked: map<Path, nat>): map<Path, seq<Byte>>
    requires forall k :: k in picked ==> picked[k] < |archive.contents|
  {
    map k | k in picked :: archive.contents[picked[k]]
  }

  /** All the bytes of a save. */
  ghost function Total(data: map<Path, seq<Byte>>): nat
    decreases |data|
  {
    if data == map[] then 0
    else
      var k :| k in data;
      |data[k]| + Total(data - {k})
  }

  lemma {:induction false} TotalWithout(data: map<Path, seq<Byte>>, k: Path)
    requires k in data
    ensures Total(data) == |data[k]| + Total(data - {k})
    decreases |data|
  {
    var first :| first in data && Total(data) == |data[first]| + Total(data - {first});
    if first != k {
      TotalWithout(data - {first}, k);
      TotalWithout(data - {k}, first);
      assert data - {first} - {k} == data - {k} - {first};
    }
  }

  /** No file is above another when each goes straight into the bank. */
  lemma NamesDoNotNest(rule: Rule, archive: Archive, picked: map<Path, nat>)
    requires Picks(rule, archive.names, picked) && rule.Files?
    requires forall k :: k in picked ==> picked[k] < |archive.contents|
    ensures PrefixFree(Payloads(archive, picked))
  {
  }

  /** What an archive is judged to be, before anything is touched: the choice, when it is
      within the limits, or the first reason to refuse it. */
  ghost predicate Judged(title: string, archive: Archive, r: Result<map<Path, nat>, Why>)
    requires |archive.names| == |archive.contents|
  {
    var rule := RuleOf(Lower(title));
    if rule.None? then r == Err(NoRule)
    else if archive.size > ARCHIVE_LIMIT then r == Err(ArchiveTooLarge)
    else if r.Err? && r.error.BadChoice? then Refuses(rule.value, archive.names, r.error.why)
    else exists picked :: Picks(rule.value, archive.names, picked) && Weighed(archive, picked, r)
  }

  ghost predicate Weighed(archive: Archive, picked: map<Path, nat>, r: Result<map<Path, nat>, Why>)
    requires forall k :: k in picked ==> picked[k] < |archive.contents|
  {
    var data := Payloads(archive, picked);
    if |picked| > COUNT_LIMIT then r == Err(TooManyFiles)
    else if exists k :: k in data && |data[k]| > FILE_LIMIT then r == Err(FileTooLarge)
    else if Total(data) > TOTAL_LIMIT then r == Err(SaveTooLarge)
    else r == Ok(picked)
  }

  /** Reads what the rule of the game picks, within the limits. */
  method Judge(title: string, archive: Archive) returns (r: Result<map<Path, nat>, Why>)
    requires |archive.names| == |archive.contents|
    ensures Judged(title, archive, r)
    ensures r.Ok? ==> RuleOf(Lower(title)).Some? && Picks(RuleOf(Lower(title)).value, archive.names, r.value)
    ensures r.Ok? ==> forall k :: k in r.value ==> r.value[k] < |archive.contents|
    ensures r.Ok? ==> Weighed(archive, r.value, r)
    ensures r.Err? ==> r.error != NoContainer
  {
    hide Picks, Refuses, Total, RuleOf;
    var rule := RuleOf(Lower(title));
    if rule.None? {
      return Err(NoRule);
    }
    if archive.size > ARCHIVE_LIMIT {
      return Err(ArchiveTooLarge);
    }
    RulesAreGood(Lower(title));
    var chosen := Chosen(rule.value, archive.names);
    if chosen.Err? {
      return Err(BadChoice(chosen.error));
    }
    var picked := chosen.value;
    PicksAreEntries(rule.value, archive.names, picked);
    if |picked| > COUNT_LIMIT {
      r := Err(TooManyFiles);
    } else {
      var weight := Weigh(Payloads(archive, picked));
      r := if weight.None? then Err(FileTooLarge)
           else if weight.value > TOTAL_LIMIT then Err(SaveTooLarge) else Ok(picked);
    }
    assert Weighed(archive, picked, r);
  }

  lemma PicksAreEntries(rule: Rule, names: seq<string>, picked: map<Path, nat>)
    requires Picks(rule, names, picked)
    ensures forall k :: k in picked ==> picked[k] < |names| && k != [] && Plain(k)
    ensures GoodRule(rule) ==> picked != map[]
  {
    hide OnlyOne, LastAt;
    if GoodRule(rule) && rule.Files? {
      assert [rule.names[0]] in picked;
    }
  }

  function Only(data: map<Path, seq<Byte>>, left: set<Path>): map<Path, seq<Byte>> {
    map k | k in data && k in left :: data[k]
  }

  /** How much there is, or none when one file is too large. */
  method Weigh(data: map<Path, seq<Byte>>) returns (weight: Option<nat>)
    ensures weight.None? <==> exists k :: k in data && |data[k]| > FILE_LIMIT
    ensures weight.Some? ==> weight.value == Total(data)
  {
    hide Total;
    var left, total := data.Keys, 0;
    assert Only(data, left) == data;
    while left != {}
      invariant left <= data.Keys
      invariant total + Total(Only(data, left)) == Total(data)
      invariant forall k :: k in data && k !in left ==> |data[k]| <= FILE_LIMIT
      decreases left
    {
      var k :| k in left;
      if |data[k]| > FILE_LIMIT {
        return None;
      }
      TotalWithout(Only(data, left), k);
      assert Only(data, left) - {k} == Only(data, left - {k});
      total, left := total + |data[k]|, left - {k};
    }
    NothingWeighs(data);
    return Some(total);
  }

  lemma NothingWeighs(data: map<Path, seq<Byte>>)
    ensures Total(Only(data, {})) == 0
  {
    assert Only(data, {}) == map[];
  }

  // ---- the whole import ------------------------------------------------------

  /** The entries of the directory of containers, as the disk has them. */
  ghost predicate Listing(t: Tree, containers: seq<Container>) {
    forall i :: 0 <= i < |containers| ==>
      containers[i].isDirectory ==> USER + ["save", containers[i].name] in t
                                    && t[USER + ["save", containers[i].name]].Dir?
  }

  /** The one container of the game. */
  ghost predicate OwnedBy(containers: seq<Container>, number: nat, name: string) {
    exists i :: 0 <= i < |containers| && containers[i].name == name
                && forall j :: 0 <= j < |containers| ==> (Owned(containers[j], number) <==> j == i)
  }

  /** What is imported: at most 64 files of at most 12 000 000 bytes, 24 000 000 in all, each
      strictly inside the bank it is put in. */
  ghost predicate Within(archive: Archive, picked: map<Path, nat>, data: map<Path, seq<Byte>>) {
    && (forall k :: k in picked ==> picked[k] < |archive.contents|) && data == Payloads(archive, picked)
    && data != map[] && |data| <= COUNT_LIMIT && Total(data) <= TOTAL_LIMIT
    && (forall k :: k in data ==> |data[k]| <= FILE_LIMIT)
    && (forall k, bank :: k in data ==> Walked(bank, k) == bank + k && bank < Walked(bank, k))
  }

  /** What was chosen, when it was, and where it goes. */
  ghost predicate Selects(title: string, archive: Archive, containers: seq<Container>, container: string,
                          data: map<Path, seq<Byte>>)
    requires |archive.names| == |archive.contents| && Title(title)
  {
    && OwnedBy(containers, Number(title), container)
    && (exists picked :: Judged(title, archive, Ok(picked)) && Within(archive, picked, data))
    && (forall names :: RuleOf(Lower(title)) == Some(Files(names)) ==> PrefixFree(data))
  }

  /** Why nothing is: the archive is refused, or no one container is the game's own. */
  ghost predicate TurnsDown(title: string, archive: Archive, containers: seq<Container>, why: Why)
    requires |archive.names| == |archive.contents| && Title(title)
  {
    if why != NoContainer then Judged(title, archive, Err(why))
    else (exists picked :: Judged(title, archive, Ok(picked)))
         && !exists name :: OwnedBy(containers, Number(title), name)
  }

  method Select(title: string, archive: Archive, containers: seq<Container>)
      returns (r: Result<(string, map<Path, seq<Byte>>), Why>)
    requires Title(title) && |archive.names| == |archive.contents|
    ensures r.Ok? ==> Selects(title, archive, containers, r.value.0, r.value.1)
    ensures r.Ok? ==> r.value.1 != map[] && [] !in r.value.1
    ensures r.Err? ==> TurnsDown(title, archive, containers, r.error)
  {
    hide Judged, Picks, Weighed, PrefixFree, OwnedBy, Within, Owned, RuleOf;
    var judged := Judge(title, archive);
    if judged.Err? {
      return Err(judged.error);
    }
    var picked := judged.value;
    var found := AccountContainer(containers, Number(title));
    OwnerIsFound(containers, Number(title), found);
    if found.None? {
      return Err(NoContainer);
    }
    RulesAreGood(Lower(title));
    var rule := RuleOf(Lower(title)).value;
    DataIsWithin(rule, archive, picked);
    if rule.Files? {
      NamesDoNotNest(rule, archive, picked);
    }
    return Ok((found.value, Payloads(archive, picked)));
  }

  /** Nothing is touched unless the game has a rule, the archive and what the rule picks in
      it are within the limits, and one container is the game's own. Then no file goes
      anywhere but strictly inside the banks of that container, and every state on the way
      is that of an import of exactly those files. */
  method ImportArchive(disk: Disk, title: string, archive: Archive, containers: seq<Container>, manifest: seq<Byte>,
                       stamp: string, ns: string)
    returns (r: Verdict, ghost container: string, ghost data: map<Path, seq<Byte>>)
    requires disk.Valid() && Title(title) && |archive.names| == |archive.contents| && Listing(disk.root, containers)
    modifies disk
    ensures disk.Valid() && disk.Grown()
    ensures r.NotTaken? ==> disk.root == old(disk.root) && disk.log == old(disk.log) && disk.faults == old(disk.faults)
    ensures r.NotTaken? ==> TurnsDown(title, archive, containers, r.why)
    ensures r.Taken? ==>
              && Selects(title, archive, containers, container, data)
              && AllSteps(disk.log, old(|disk.log|), Sub(old(disk.root), USER), container, FilesTree(data), r.kept)
    ensures r.Taken? && r.outcome.Imported? ==>
              && r.kept.Done? && Sub(disk.root, r.kept.at) == Sub(old(disk.root), USER)
              && Sub(disk.root, USER) == Stage(Sub(old(disk.root), USER), container, FilesTree(data), 4)
              && MANIFEST in disk.root && disk.root[MANIFEST] == File(manifest)
    ensures r.Taken? && r.outcome.ImportFailed? ==>
              || disk.faults > old(disk.faults) || NoBackupCan(old(disk.root), stamp, ns)
              || !Importable(old(disk.root), container) || !PrefixFree(data)
  {
    hide Sub, AllSteps, FilesTree, Selects, TurnsDown, NoBackupCan, Importable, PrefixFree, Rooted, Stage;
    container, data := "", map[];
    var selected := Select(title, archive, containers);
    if selected.Err? {
      return NotTaken(selected.error), container, data;
    }
    container, data := selected.value.0, selected.value.1;
    ContainerIsThere(disk.root, title, archive, containers, container, data);
    var outcome, kept := ImportSave(disk, selected.value.0, selected.value.1, manifest, stamp, ns);
    return Taken(outcome, kept), container, data;
  }

  lemma DataIsWithin(rule: Rule, archive: Archive, picked: map<Path, nat>)
    requires GoodRule(rule) && |archive.names| == |archive.contents|
    requires Picks(rule, archive.names, picked)
    requires forall k :: k in picked ==> picked[k] < |archive.contents|
    requires Weighed(archive, picked, Ok(picked))
    ensures Within(archive, picked, Payloads(archive, picked))
    ensures Payloads(archive, picked) != map[] && [] !in Payloads(archive, picked)
  {
    hide Total, Walked, Plain, Picks;
    PicksAreEntries(rule, archive.names, picked);
    var data := Payloads(archive, picked);
    assert data.Keys == picked.Keys && |data| == |data.Keys| && |picked| == |picked.Keys|;
    forall k, bank | k in data
      ensures Walked(bank, k) == bank + k && bank < Walked(bank, k)
    {
      PlainStaysInside(bank, k);
    }
  }

  lemma OwnerIsFound(containers: seq<Container>, number: nat, found: Option<string>)
    requires found.Some? ==> exists i :: 0 <= i < |containers| && containers[i].name == found.value
                               && forall j :: 0 <= j < |containers| ==> (Owned(containers[j], number) <==> j == i)
    requires found.None? ==> forall i :: 0 <= i < |containers| && Owned(containers[i], number) ==>
                               exists j :: 0 <= j < |containers| && j != i && Owned(containers[j], number)
    ensures found.Some? ==> OwnedBy(containers, number, found.value)
    ensures found.None? ==> !exists name :: OwnedBy(containers, number, name)
  {
    hide Owned;
  }

  lemma ContainerIsThere(t: Tree, title: string, archive: Archive, containers: seq<Container>, container: string,
                         data: map<Path, seq<Byte>>)
    requires |archive.names| == |archive.contents| && Title(title)
    requires Selects(title, archive, containers, container, data) && Listing(t, containers) && Rooted(t)
    ensures USER in t
  {
    hide Judged, Within, RuleOf;
    var place := USER + ["save", container];
    assert place[..3] == USER;
  }
}
