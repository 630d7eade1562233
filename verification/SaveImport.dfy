/** Putting a downloaded save in place of the banks of a container
    (docker/switch-saves.py, import_save). */
module SaveImport {
  import opened Common
  import opened FileTree
  import opened TreeFrames
  import opened SaveSlots
  import opened SwitchSaves
  import opened PendingSave
  import opened BankSwap

  /** The user tree as the import goes on: untouched, bank 0 taken out, bank 0
      replaced, bank 1 taken out, both replaced. No bank ever mixes old and new
      files. */
  function Stage(user: Tree, container: string, save: Tree, n: nat): Tree {
    if n == 0 then user
    else if n == 1 then Cut(user, Bank(container, "0"))
    else if n == 2 then WithBank(user, container, "0", save)
    else if n == 3 then Cut(WithBank(user, container, "0", save), Bank(container, "1"))
    else WithBank(WithBank(user, container, "0", save), container, "1", save)
  }

  /** A state of an import: the user tree is at some stage, and from the first
      change on the whole old tree is in the backup. */
  ghost predicate ImportStep(t: Tree, user: Tree, container: string, save: Tree, kept: BackedUp) {
    || Sub(t, USER) == user
    || (kept.Done? && Sub(t, kept.at) == user && exists n :: AtStage(t, user, container, save, n))
  }

  ghost predicate AtStage(t: Tree, user: Tree, container: string, save: Tree, n: nat) {
    n <= 4 && Sub(t, USER) == Stage(user, container, save, n)
  }

  // ---- the whole import ------------------------------------------------------

  datatype ImportOutcome = Imported | ImportFailed

  /** Every state up to one is an import step. */
  ghost predicate AllSteps(log: seq<Tree>, from: nat, user: Tree, container: string, save: Tree, kept: BackedUp) {
    forall i :: from <= i < |log| ==> ImportStep(log[i], user, container, save, kept)
  }

  lemma StepsChain(log: seq<Tree>, early: seq<Tree>, from: nat, user: Tree, container: string, save: Tree,
                   kept: BackedUp)
    requires from <= |early| <= |log| && log[..|early|] == early
    requires AllSteps(early, from, user, container, save, kept)
    requires AllSteps(log, |early|, user, container, save, kept)
    ensures AllSteps(log, from, user, container, save, kept)
  {
    hide ImportStep;
    forall i | from <= i < |early|
      ensures log[i] == early[i]
    {
      assert log[i] == log[..|early|][i];
    }
  }

  /** During and after the backup the user tree is untouched. */
  lemma BackupSteps(log: seq<Tree>, from: nat, after: Tree, before: Tree, container: string, save: Tree, kept: BackedUp)
    requires AllBackupSteps(log, from, before)
    requires BackupStep(after, before)
    ensures AllSteps(log, from, Sub(before, USER), container, save, kept)
    ensures Sub(after, USER) == Sub(before, USER) && Sub(after, IMPORT) == Sub(before, IMPORT)
  {
    hide Sub;
    FourPlaces();
    forall i | from <= i < |log|
      ensures ImportStep(log[i], Sub(before, USER), container, save, kept)
    {
      assert BackupStep(log[i], before);
    }
  }

  lemma FourPlaces()
    ensures Apart(USER, BACKUPS) && Apart(IMPORT, BACKUPS) && Apart(USER, IMPORT)
    ensures Apart(USER, MANIFEST) && Apart(IMPORT, MANIFEST)
    ensures forall r :: BACKUPS <= r ==> Apart(r, USER) && Apart(r, IMPORT) && Apart(r, MANIFEST)
  {
    assert |USER[0]| == 4 && |IMPORT[0]| == 14 && |MANIFEST[0]| == 11 && |BACKUPS[0]| == 7;
    forall r: Path | BACKUPS <= r
      ensures r[0] == BACKUPS[0]
    {
    }
  }

  /** A state beside a place that is neither the user tree nor a backup is a step. */
  lemma BesideSteps(log: seq<Tree>, from: nat, mid: Tree, place: Path, user: Tree, container: string, save: Tree,
                    kept: BackedUp)
    requires AllBeside(log, from, mid, place)
    requires Apart(USER, place) && (kept.Done? ==> Apart(kept.at, place))
    requires ImportStep(mid, user, container, save, kept)
    ensures AllSteps(log, from, user, container, save, kept)
  {
    hide Sub, Apart, AtStage;
    forall i | from <= i < |log|
      ensures ImportStep(log[i], user, container, save, kept)
    {
      BesideStep(log[i], mid, place, user, container, save, kept);
    }
  }

  lemma BesideStep(t: Tree, mid: Tree, place: Path, user: Tree, container: string, save: Tree, kept: BackedUp)
    requires Beside(t, mid, place)
    requires Apart(USER, place) && (kept.Done? ==> Apart(kept.at, place))
    requires ImportStep(mid, user, container, save, kept)
    ensures ImportStep(t, user, container, save, kept)
  {
    hide Sub, Apart, Stage;
    if Sub(mid, USER) != user {
      var n :| AtStage(mid, user, container, save, n);
      assert AtStage(t, user, container, save, n);
    }
  }

  /** A step of putting a bank in place, seen from the whole import. */
  lemma SwapSteps(log: seq<Tree>, from: nat, mid: Tree, bank: string, user: Tree, container: string, save: Tree,
                  kept: BackedUp)
    requires bank == "0" || bank == "1"
    requires forall i :: from <= i < |log| ==> SwapStep(log[i], mid, container, bank)
    requires kept.Done? && BACKUPS <= kept.at && Sub(mid, kept.at) == user
    requires Sub(mid, Fresh(bank)) == save
    requires Sub(mid, USER) == Stage(user, container, save, if bank == "0" then 0 else 2)
    ensures AllSteps(log, from, user, container, save, kept)
  {
    hide SwapStep, ImportStep;
    forall i | from <= i < |log|
      ensures ImportStep(log[i], user, container, save, kept)
    {
      SwapIsAStep(log[i], mid, bank, user, container, save, kept);
    }
  }

  lemma SwapIsAStep(t: Tree, mid: Tree, bank: string, user: Tree, container: string, save: Tree, kept: BackedUp)
    requires bank == "0" || bank == "1"
    requires SwapStep(t, mid, container, bank)
    requires kept.Done? && BACKUPS <= kept.at && Sub(mid, kept.at) == user
    requires Sub(mid, Fresh(bank)) == save
    requires Sub(mid, USER) == Stage(user, container, save, if bank == "0" then 0 else 2)
    ensures ImportStep(t, user, container, save, kept)
  {
    hide Sub, Cut, Graft, Apart, Bank, Fresh;
    FourPlaces();
    assert Sub(t, kept.at) == user;
    var first := if bank == "0" then 1 else 3;
    assert AtStage(t, user, container, save, first) || AtStage(t, user, container, save, first + 1);
  }

  /** Nothing but the user tree, the pending place and the record of the import changed. */
  ghost predicate Others(t: Tree, before: Tree) {
    forall r :: Apart(r, USER) && Apart(r, IMPORT) && Apart(r, MANIFEST) ==> Sub(t, r) == Sub(before, r)
  }

  ghost predicate AllOthers(log: seq<Tree>, from: nat, after: Tree, before: Tree) {
    Others(after, before) && forall i :: from <= i < |log| ==> Others(log[i], before)
  }

  lemma OthersBeside(log: seq<Tree>, from: nat, after: Tree, before: Tree, place: Path)
    requires AllBeside(log, from, before, place) && Beside(after, before, place)
    requires place == IMPORT || place == MANIFEST
    ensures AllOthers(log, from, after, before)
  {
    hide Sub, Apart;
    forall i | from <= i < |log|
      ensures Others(log[i], before)
    {
      assert Beside(log[i], before, place);
    }
  }

  lemma OthersOfSwap(log: seq<Tree>, from: nat, after: Tree, before: Tree, container: string, bank: string)
    requires forall i :: from <= i < |log| ==> SwapStep(log[i], before, container, bank)
    requires after == before || SwapStep(after, before, container, bank)
    ensures AllOthers(log, from, after, before)
  {
    hide Sub, Apart, WithBank, Bank;
    forall i | from <= i < |log|
      ensures Others(log[i], before)
    {
      assert SwapStep(log[i], before, container, bank);
    }
  }

  lemma OthersChain(log: seq<Tree>, early: seq<Tree>, from: nat, after: Tree, mid: Tree, before: Tree)
    requires from <= |early| <= |log| && log[..|early|] == early
    requires AllOthers(early, from, mid, before) && AllOthers(log, |early|, after, mid)
    ensures AllOthers(log, from, after, before)
  {
    hide Sub, Apart;
    forall i | from <= i < |log|
      ensures Others(log[i], before)
    {
      if i < |early| {
        assert log[i] == log[..|early|][i] == early[i];
      } else {
        assert Others(log[i], mid);
      }
    }
  }

  /** The user tree is at a stage and the whole old one is in the backup. */
  ghost predicate At(t: Tree, user: Tree, container: string, save: Tree, kept: BackedUp, n: nat) {
    kept.Done? && BACKUPS <= kept.at && Sub(t, kept.at) == user && AtStage(t, user, container, save, n)
  }

  lemma AtIsAStep(t: Tree, user: Tree, container: string, save: Tree, kept: BackedUp, n: nat)
    requires At(t, user, container, save, kept, n)
    ensures ImportStep(t, user, container, save, kept)
  {
  }

  lemma AtBeside(t: Tree, mid: Tree, place: Path, user: Tree, container: string, save: Tree, kept: BackedUp, n: nat)
    requires Beside(t, mid, place) && At(mid, user, container, save, kept, n)
    requires Apart(USER, place) && Apart(kept.at, place)
    ensures At(t, user, container, save, kept, n)
  {
    hide Sub, Apart, Stage;
  }

  lemma AtAfterSwap(t: Tree, mid: Tree, bank: string, user: Tree, container: string, save: Tree, kept: BackedUp)
    requires bank == "0" || bank == "1"
    requires SwapStep(t, mid, container, bank) && Sub(mid, Fresh(bank)) == save
    requires At(mid, user, container, save, kept, if bank == "0" then 0 else 2)
    requires Sub(t, USER) == WithBank(Sub(mid, USER), container, bank, Sub(mid, Fresh(bank)))
    ensures At(t, user, container, save, kept, if bank == "0" then 2 else 4)
  {
    hide Sub, Graft, Cut, Apart, Bank, Fresh;
    FourPlaces();
  }

  /** Both banks of a container are where the game looks for them. */
  predicate BothThere(t: Tree, container: string) {
    Live(container, "0") in t && Live(container, "1") in t
  }

  /** Both banks swapped, the first one first. */
  method SwapBoth(disk: Disk, container: string, ghost user: Tree, ghost save: Tree, ghost kept: BackedUp)
    returns (ok: bool)
    requires disk.Valid()
    requires At(disk.root, user, container, save, kept, 0)
    requires Sub(disk.root, BANK0) == save && Sub(disk.root, BANK1) == save
    modifies disk
    ensures disk.Valid() && disk.Grown()
    ensures AllSteps(disk.log, old(|disk.log|), user, container, save, kept)
    ensures AllOthers(disk.log, old(|disk.log|), disk.root, old(disk.root))
    ensures ok ==> At(disk.root, user, container, save, kept, 4) && BothThere(old(disk.root), container)
    ensures !ok ==> disk.faults > old(disk.faults) || !Swappable(old(disk.root), container, "0")
                    || !Swappable(old(disk.root), container, "1")
    ensures ok && FolderReady(old(disk.root)) ==> FolderReady(disk.root)
  {
    hide Sub, AllSteps, AtStage, SwapStep, Stage, WithBank, ImportStep, Swappable, Live, Bank, FolderReady, AllOthers;
    assert Fresh("0") == BANK0 && Fresh("1") == BANK1;
    ghost var t0, from := disk.root, |disk.log|;
    ok := SwapBank(disk, container, "0");
    AtStageIs(t0, user, container, save, 0);
    SwapSteps(disk.log, from, t0, "0", user, container, save, kept);
    OthersOfSwap(disk.log, from, disk.root, t0, container, "0");
    if !ok {
      return;
    }
    AtAfterSwap(disk.root, t0, "0", user, container, save, kept);
    ghost var t1, log1 := disk.root, disk.log;
    ok := SwapBank(disk, container, "1");
    AtStageIs(t1, user, container, save, 2);
    SwapSteps(disk.log, |log1|, t1, "1", user, container, save, kept);
    StepsChain(disk.log, log1, from, user, container, save, kept);
    OthersOfSwap(disk.log, |log1|, disk.root, t1, container, "1");
    OthersChain(disk.log, log1, from, disk.root, t1, t0);
    if ok {
      AtAfterSwap(disk.root, t1, "1", user, container, save, kept);
    }
  }

  lemma AtStageIs(t: Tree, user: Tree, container: string, save: Tree, n: nat)
    requires AtStage(t, user, container, save, n)
    ensures Sub(t, USER) == Stage(user, container, save, n)
  {
  }

  /** The pending place removed and the record of the import written. */
  method CleanUp(disk: Disk, manifest: seq<Byte>, ghost user: Tree, ghost container: string, ghost save: Tree,
                 ghost kept: BackedUp)
    returns (ok: bool)
    requires disk.Valid()
    requires At(disk.root, user, container, save, kept, 4)
    modifies disk
    ensures disk.Valid() && disk.Grown()
    ensures AllSteps(disk.log, old(|disk.log|), user, container, save, kept)
    ensures AllOthers(disk.log, old(|disk.log|), disk.root, old(disk.root))
    ensures ok ==> At(disk.root, user, container, save, kept, 4) && Sub(disk.root, IMPORT) == map[]
    ensures ok ==> MANIFEST in disk.root && disk.root[MANIFEST] == File(manifest)
    ensures !ok ==> disk.faults > old(disk.faults) || !FolderReady(old(disk.root))
  {
    hide Sub, Apart, AllSteps, AllBeside, Beside, AtStage, ImportStep, SameOutside, Confined, AllOthers;
    FourPlaces();
    assert !(IMPORT <= MANIFEST) by {
      assert |IMPORT[0]| == 14 && |MANIFEST[0]| == 11;
    }
    assert IMPORT + [] == IMPORT && MANIFEST + [] == MANIFEST;
    ghost var t0, from := disk.root, |disk.log|;
    ok := disk.RemoveTree(IMPORT);
    ConfinedIsBeside(disk.log, from, t0, IMPORT, []);
    AtIsAStep(t0, user, container, save, kept, 4);
    BesideSteps(disk.log, from, t0, IMPORT, user, container, save, kept);
    InsideIsBeside(disk.root, t0, IMPORT, []);
    OthersBeside(disk.log, from, disk.root, t0, IMPORT);
    if !ok {
      return;
    }
    SubOfCut(t0, IMPORT);
    RecordCanBeWritten(disk.root, t0);
    AtBeside(disk.root, t0, IMPORT, user, container, save, kept, 4);
    ghost var t1, log1 := disk.root, disk.log;
    ok := disk.WriteFile(MANIFEST, manifest);
    ConfinedIsBeside(disk.log, |log1|, t1, MANIFEST, []);
    AtIsAStep(t1, user, container, save, kept, 4);
    BesideSteps(disk.log, |log1|, t1, MANIFEST, user, container, save, kept);
    StepsChain(disk.log, log1, from, user, container, save, kept);
    InsideIsBeside(disk.root, t1, MANIFEST, []);
    OthersBeside(disk.log, |log1|, disk.root, t1, MANIFEST);
    OthersChain(disk.log, log1, from, disk.root, t1, t0);
    AtBeside(disk.root, t1, MANIFEST, user, container, save, kept, 4);
    SubBeside(disk.root, t1, MANIFEST, IMPORT);
  }

  lemma RecordCanBeWritten(t: Tree, before: Tree)
    requires Rooted(before) && t == Cut(before, IMPORT)
    ensures FolderReady(before) ==> CanWrite(t, MANIFEST)
  {
    if FolderReady(before) {
      assert IMPORT[..0] == MANIFEST[..0] == [];
    }
  }

  /** What an import needs of a slot: nothing in the way of its pending place and its
      record, and the container's two banks. */
  predicate Importable(t: Tree, container: string) {
    && Clear(t) && !(MANIFEST in t && t[MANIFEST].Dir?)
    && Live(container, "0") in t && Live(container, "1") in t
    && USER + ["save", container] in t && t[USER + ["save", container]].Dir?
  }

  lemma ImportableIsClear(t: Tree, container: string)
    requires Importable(t, container)
    ensures Clear(t)
  {
  }

  lemma ApartFromImport(r: Path)
    requires r != [] && |r[0]| != 14
    ensures Apart(r, IMPORT)
  {
  }

  lemma StagedIsSwappable(t: Tree, before: Tree, container: string)
    requires Staged(t) && Beside(t, before, IMPORT) && Importable(before, container)
    ensures Swappable(t, container, "0") && Swappable(t, container, "1") && FolderReady(t)
  {
    hide Sub, Apart;
    var places := [Live(container, "0"), Live(container, "1"), USER + ["save", container], MANIFEST];
    assert |USER[0]| == 4 && |MANIFEST[0]| == 11 && forall i :: 0 <= i < 3 ==> places[i][0] == USER[0];
    forall i | 0 <= i < |places|
      ensures places[i] in t <==> places[i] in before
      ensures places[i] in t ==> t[places[i]] == before[places[i]]
    {
      ApartFromImport(places[i]);
      SameEntry(t, before, places[i]);
    }
    assert places[0] in t && places[1] in t && places[2] in t && places[3] == MANIFEST;
    assert Fresh("0") == BANK0 && Fresh("1") == BANK1;
  }

  /** All of an import that comes after the backup. */
  method ReplaceBanks(disk: Disk, container: string, data: map<Path, seq<Byte>>, manifest: seq<Byte>,
                      ghost user: Tree, ghost kept: BackedUp) returns (ok: bool)
    requires disk.Valid()
    requires [] !in data && data != map[]
    requires At(disk.root, user, container, FilesTree(data), kept, 0)
    modifies disk
    ensures disk.Valid() && disk.Grown()
    ensures AllSteps(disk.log, old(|disk.log|), user, container, FilesTree(data), kept)
    ensures AllOthers(disk.log, old(|disk.log|), disk.root, old(disk.root))
    ensures ok ==> At(disk.root, user, container, FilesTree(data), kept, 4) && Sub(disk.root, IMPORT) == map[]
    ensures ok ==> MANIFEST in disk.root && disk.root[MANIFEST] == File(manifest)
    ensures ok ==> BothThere(old(disk.root), container)
    ensures !ok ==> disk.faults > old(disk.faults) || !Importable(old(disk.root), container) || !PrefixFree(data)
  {
    hide Sub, Apart, FilesTree, AllSteps, AllBeside, Beside, AtStage, ImportStep, Importable, PrefixFree, Staged,
      Swappable, FolderReady, Clear, AllOthers, BothThere;
    FourPlaces();
    ghost var save, t0, from := FilesTree(data), disk.root, |disk.log|;
    if Importable(t0, container) {
      ImportableIsClear(t0, container);
    }
    ok := WriteBanks(disk, data);
    AtIsAStep(t0, user, container, save, kept, 0);
    BesideSteps(disk.log, from, t0, IMPORT, user, container, save, kept);
    OthersBeside(disk.log, from, disk.root, t0, IMPORT);
    if !ok {
      return;
    }
    AtBeside(disk.root, t0, IMPORT, user, container, save, kept, 0);
    SameBanks(disk.root, t0, container);
    if Importable(t0, container) {
      StagedIsSwappable(disk.root, t0, container);
    }
    ghost var t1, log1 := disk.root, disk.log;
    ok := SwapAndClean(disk, container, manifest, user, save, kept);
    StepsChain(disk.log, log1, from, user, container, save, kept);
    OthersChain(disk.log, log1, from, disk.root, t1, t0);
  }

  lemma SameBanks(t: Tree, before: Tree, container: string)
    requires Beside(t, before, IMPORT)
    ensures BothThere(t, container) <==> BothThere(before, container)
  {
    hide Sub, Apart;
    assert Live(container, "0")[0] == Live(container, "1")[0] == USER[0] && |USER[0]| == 4;
    ApartFromImport(Live(container, "0"));
    ApartFromImport(Live(container, "1"));
    SameEntry(t, before, Live(container, "0"));
    SameEntry(t, before, Live(container, "1"));
  }

  /** Both banks put in place, then the pending place cleared. */
  method SwapAndClean(disk: Disk, container: string, manifest: seq<Byte>, ghost user: Tree, ghost save: Tree,
                      ghost kept: BackedUp) returns (ok: bool)
    requires disk.Valid()
    requires At(disk.root, user, container, save, kept, 0)
    requires Sub(disk.root, BANK0) == save && Sub(disk.root, BANK1) == save
    modifies disk
    ensures disk.Valid() && disk.Grown()
    ensures AllSteps(disk.log, old(|disk.log|), user, container, save, kept)
    ensures AllOthers(disk.log, old(|disk.log|), disk.root, old(disk.root))
    ensures ok ==> At(disk.root, user, container, save, kept, 4) && Sub(disk.root, IMPORT) == map[]
    ensures ok ==> MANIFEST in disk.root && disk.root[MANIFEST] == File(manifest)
    ensures ok ==> BothThere(old(disk.root), container)
    ensures !ok ==> disk.faults > old(disk.faults) || !FolderReady(old(disk.root))
                    || !Swappable(old(disk.root), container, "0") || !Swappable(old(disk.root), container, "1")
  {
    hide Sub, AllSteps, At, Swappable, FolderReady, AllOthers, BothThere;
    ghost var t0, from := disk.root, |disk.log|;
    ok := SwapBoth(disk, container, user, save, kept);
    if !ok {
      return;
    }
    ghost var t1, log1 := disk.root, disk.log;
    ok := CleanUp(disk, manifest, user, container, save, kept);
    StepsChain(disk.log, log1, from, user, container, save, kept);
    OthersChain(disk.log, log1, from, disk.root, t1, t0);
  }

  lemma ImportableAfterBackup(t: Tree, before: Tree, container: string)
    requires BackupStep(t, before) && Importable(before, container) && [] in t && t[[]].Dir?
    ensures Importable(t, container)
  {
    hide Sub;
    var places := [Live(container, "0"), Live(container, "1"), USER + ["save", container], MANIFEST, IMPORT];
    assert |USER[0]| == 4 && |MANIFEST[0]| == 11 && |IMPORT[0]| == 14 && |BACKUPS[0]| == 7;
    assert forall i :: 0 <= i < 3 ==> places[i][0] == USER[0];
    forall i | 0 <= i < |places|
      ensures places[i] in t <==> places[i] in before
      ensures places[i] in t ==> t[places[i]] == before[places[i]]
    {
      assert Apart(places[i], BACKUPS);
      SameEntry(t, before, places[i]);
    }
    assert places[0] in t && places[1] in t && places[2] in t && places[3] == MANIFEST && places[4] == IMPORT;
  }

  /** Every backup that was there is still there, as it was. */
  ghost predicate KeepsBackups(t: Tree, before: Tree) {
    forall name :: BACKUPS + [name] in before ==> Sub(t, BACKUPS + [name]) == Sub(before, BACKUPS + [name])
  }

  ghost predicate AllKeep(log: seq<Tree>, from: nat, before: Tree) {
    forall i :: from <= i < |log| ==> KeepsBackups(log[i], before)
  }

  lemma BackupKeeps(log: seq<Tree>, from: nat, before: Tree)
    requires AllBackupSteps(log, from, before)
    ensures AllKeep(log, from, before)
  {
    hide Sub, PartialCopy, Apart;
  }

  lemma OthersKeep(log: seq<Tree>, early: seq<Tree>, from: nat, after: Tree, mid: Tree, before: Tree)
    requires from <= |early| <= |log| && log[..|early|] == early
    requires AllBackupSteps(early, from, before) && BackupStep(mid, before) && AllOthers(log, |early|, after, mid)
    ensures AllKeep(log, from, before)
  {
    hide Sub, PartialCopy, Apart;
    BackupKeeps(early, from, before);
    forall i, name | from <= i < |log| && BACKUPS + [name] in before
      ensures Sub(log[i], BACKUPS + [name]) == Sub(before, BACKUPS + [name])
    {
      if i < |early| {
        assert log[i] == log[..|early|][i] == early[i];
        assert KeepsBackups(early[i], before);
      } else {
        FourPlaces();
        assert BACKUPS <= BACKUPS + [name] && Others(log[i], mid);
      }
    }
  }

  lemma BanksAfterBackup(t: Tree, before: Tree, container: string)
    requires BackupStep(t, before)
    ensures BothThere(t, container) <==> BothThere(before, container)
  {
    hide Sub, PartialCopy;
    var one, two := Live(container, "0"), Live(container, "1");
    assert one[0] == two[0] == USER[0] && |USER[0]| == 4 && |BACKUPS[0]| == 7;
    SameEntry(t, before, one);
    SameEntry(t, before, two);
  }

  /** Replaces both banks of a container of a stopped game with the given files. At
      every step each bank is the old one, gone, or the whole new one, and the old
      user tree is in place or whole in a finished backup, and no earlier backup is
      touched. A container with a bank missing is never imported to. The files come from an
      accepted archive, so there is at least one and none is the bank itself. */
  method ImportSave(disk: Disk, container: string, data: map<Path, seq<Byte>>, manifest: seq<Byte>,
                    stamp: string, ns: string) returns (r: ImportOutcome, kept: BackedUp)
    requires disk.Valid()
    requires data != map[] && [] !in data
    requires USER in disk.root
    modifies disk
    ensures disk.Valid() && disk.Grown()
    ensures AllSteps(disk.log, old(|disk.log|), Sub(old(disk.root), USER), container, FilesTree(data), kept)
    ensures AllKeep(disk.log, old(|disk.log|), old(disk.root))
    ensures kept.Done? ==>
              && (kept.at == BACKUPS + [stamp] || kept.at == BACKUPS + [stamp + "-" + ns])
              && kept.at !in old(disk.root) && old(disk.root)[USER].Dir?
    ensures r.Imported? ==> BothThere(old(disk.root), container)
    ensures r.Imported? ==>
              && kept.Done? && Sub(disk.root, kept.at) == Sub(old(disk.root), USER)
              && Sub(disk.root, USER) == Stage(Sub(old(disk.root), USER), container, FilesTree(data), 4)
              && Sub(disk.root, IMPORT) == map[]
              && MANIFEST in disk.root && disk.root[MANIFEST] == File(manifest)
    ensures r.ImportFailed? ==>
              || disk.faults > old(disk.faults) || NoBackupCan(old(disk.root), stamp, ns)
              || !Importable(old(disk.root), container) || !PrefixFree(data)
  {
    hide NoBackupCan, Importable, PrefixFree;
    hide Sub, Cut, Graft, Apart, FilesTree, BackupStep, Beside, AllBeside, AllSteps, ImportStep, SameOutside, Confined;
    hide AllOthers, AllKeep, AllBackupSteps, BothThere, ListedWhileCopied;
    ghost var before, from := disk.root, |disk.log|;
    ghost var user, save := Sub(before, USER), FilesTree(data);
    kept := Backup(disk, stamp, ns);
    BackupSteps(disk.log, from, disk.root, before, container, save, kept);
    BackupKeeps(disk.log, from, before);
    if !kept.Done? {
      return ImportFailed, kept;
    }
    ghost var mid, early := disk.root, disk.log;
    BanksAfterBackup(mid, before, container);
    ThereNow(before, IMPORT);
    ThereNow(disk.root, IMPORT);
    if Importable(before, container) {
      ImportableAfterBackup(disk.root, before, container);
    }
    var ok := ReplaceBanks(disk, container, data, manifest, user, kept);
    StepsChain(disk.log, early, from, user, container, save, kept);
    OthersKeep(disk.log, early, from, disk.root, mid, before);
    return if ok then Imported else ImportFailed, kept;
  }

  // ---- after a crash ---------------------------------------------------------

  /** An import stopped between the two renames of a bank has taken that bank out: the
      container is no longer importable, and importing again fails until the user tree is
      restored. At every other stage both banks are there. */
  lemma ARerunIsPossibleIff(t: Tree, user: Tree, container: string, save: Tree, n: nat)
    requires AtStage(t, user, container, save, n) && [] in save
    requires Bank(container, "0") in user && Bank(container, "1") in user
    ensures BothThere(t, container) <==> n != 1 && n != 3
  {
    var one, two := Bank(container, "0"), Bank(container, "1");
    assert one[2] == "0" && two[2] == "1" && |one| == |two| == 3;
    assert Live(container, "0") in t <==> one in Sub(t, USER);
    assert Live(container, "1") in t <==> two in Sub(t, USER);
    assert one[|one|..] == [] && two[|two|..] == [];
  }

  lemma StageKeepsTop(t: Tree, user: Tree, container: string, save: Tree, n: nat)
    requires AtStage(t, user, container, save, n) && [] in user
    ensures USER in t
  {
    ThereNow(t, USER);
  }

  /** An import that is stopped once it has gone through some steps. */
  datatype Attempt = Attempt(container: string, data: map<Path, seq<Byte>>, manifest: seq<Byte>, stamp: string,
                             ns: string, steps: nat)

  /** What any number of stopped imports leave of the user tree: it is whole, in place, or in
      the backup of a given name. */
  ghost predicate StillWhole(t: Tree, user: Tree, name: Option<string>) {
    && USER in t
    && (name.None? ==> Sub(t, USER) == user)
    && (name.Some? ==> name.value != "" && Sub(t, BACKUPS + [name.value]) == user && TopIsDir(user))
  }

  /** What such an import goes through, and where it is stopped. */
  ghost predicate Stopped(log: seq<Tree>, before: Tree, a: Attempt, after: Tree) {
    StoppedAt(log, a.steps, before, after) && Steps(log, before, a)
  }

  ghost predicate Steps(log: seq<Tree>, before: Tree, a: Attempt)
    requires log != []
  {
    AllKeep(log, 1, before)
    && exists kept :: AllSteps(log, 1, Sub(before, USER), a.container, FilesTree(a.data), kept)
  }

  /** One import stopped after any of its steps. */
  method StoppedImport(left: Tree, a: Attempt, ghost user: Tree, name: Option<string>)
    returns (after: Tree, backup: Option<string>, ghost log: seq<Tree>)
    requires Rooted(left) && [] in user && StillWhole(left, user, name)
    requires a.data != map[] && [] !in a.data && a.stamp != ""
    ensures Rooted(after) && StillWhole(after, user, backup)
    ensures name.Some? ==> backup == name
    ensures Stopped(log, left, a, after)
  {
    assert USER in left;
    hide Sub, Rooted, AllSteps, AllKeep, ImportStep, StillWhole, Importable, NoBackupCan, PrefixFree, FilesTree;
    var disk := new Disk(left);
    var r, kept := ImportSave(disk, a.container, a.data, a.manifest, a.stamp, a.ns);
    var reached := if a.steps < |disk.log| then a.steps else |disk.log| - 1;
    after, log := disk.log[reached], disk.log;
    backup := name;
    assert Steps(log, left, a);
    if reached > 0 {
      var current := Sub(left, USER);
      StepLeavesWhole(disk.log, reached, left, user, a, kept, name);
      if name.None? && Sub(after, USER) != current {
        backup := Some(kept.at[1]);
      }
    }
  }

  lemma StepLeavesWhole(log: seq<Tree>, i: nat, left: Tree, user: Tree, a: Attempt, kept: BackedUp,
                        name: Option<string>)
    requires 0 < i < |log| && USER in left && [] in user && StillWhole(left, user, name) && a.stamp != ""
    requires AllSteps(log, 1, Sub(left, USER), a.container, FilesTree(a.data), kept) && AllKeep(log, 1, left)
    requires kept.Done? ==>
               && (kept.at == BACKUPS + [a.stamp] || kept.at == BACKUPS + [a.stamp + "-" + a.ns])
               && left[USER].Dir?
    ensures name.None? && Sub(log[i], USER) != Sub(left, USER) ==>
              kept.Done? && |kept.at| == 2 && StillWhole(log[i], user, Some(kept.at[1]))
    ensures name.Some? || Sub(log[i], USER) == Sub(left, USER) ==> StillWhole(log[i], user, name)
  {
    hide Sub, Stage, FilesTree;
    var t, current := log[i], Sub(left, USER);
    ThereNow(left, USER);
    ThereNow(t, USER);
    assert ImportStep(t, current, a.container, FilesTree(a.data), kept) && KeepsBackups(t, left);
    if Sub(t, USER) != current {
      var n :| AtStage(t, current, a.container, FilesTree(a.data), n);
      StageKeepsTop(t, current, a.container, FilesTree(a.data), n);
    }
    if name.Some? {
      ThereNow(left, BACKUPS + [name.value]);
    }
  }

  /** Any number of imports, each stopped after any of its steps, by a crash or by its end;
      then a restore of the backup of the first of them that changed the user tree, if one
      did. When it says so, the user tree is the one of before all of them; and it fails only when an
      outside call of its own does, or something is in its way. */
  method RestoreAfterStoppedImports(slot: Tree, attempts: seq<Attempt>, stamp: string, ns: string)
    returns (name: Option<string>, ghost left: Tree, r: Option<RestoreOutcome>, disk: Disk,
             ghost trees: seq<Tree>, ghost logs: seq<seq<Tree>>)
    requires Rooted(slot) && USER in slot
    requires forall i :: 0 <= i < |attempts| ==>
               attempts[i].data != map[] && [] !in attempts[i].data && attempts[i].stamp != ""
    ensures |logs| == |attempts| && |trees| == |attempts| + 1 && trees[0] == slot && trees[|attempts|] == left
    ensures forall k :: 0 <= k < |attempts| ==> Stopped(logs[k], trees[k], attempts[k], trees[k + 1])
    ensures fresh(disk) && disk.Valid() && StillWhole(left, Sub(slot, USER), name)
    ensures r.None? <==> name.None?
    ensures r.None? || r.value.Restored? ==> Sub(disk.root, USER) == Sub(slot, USER)
    ensures r.Some? && !r.value.Restored? ==>
              || disk.faults > 0 || !PlainName(name.value) || RESTORE in left || NoBackupCan(left, stamp, ns)
              || !Ready(left, ns)
  {
    hide Sub, Rooted, PlainName, NoBackupCan, Ready, Safe, Stopped;
    var user := Sub(slot, USER);
    ThereNow(slot, USER);
    var t := slot;
    name, trees, logs := None, [slot], [];
    for k := 0 to |attempts|
      invariant Rooted(t) && StillWhole(t, user, name)
      invariant |logs| == k && |trees| == k + 1 && trees[0] == slot && trees[k] == t
      invariant forall i :: 0 <= i < k ==> Stopped(logs[i], trees[i], attempts[i], trees[i + 1])
    {
      ghost var log: seq<Tree>;
      t, name, log := StoppedImport(t, attempts[k], user, name);
      trees, logs := trees + [t], logs + [log];
    }
    left := t;
    disk := new Disk(t);
    if name.None? {
      return name, left, None, disk, trees, logs;
    }
    ThereNow(t, BACKUPS + [name.value]);
    var outcome := Restore(disk, name.value, stamp, ns);
    r := Some(outcome);
  }
}
