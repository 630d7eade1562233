/** Backing up, restoring and importing a save of a stopped game
    (docker/switch-room.py, backup; docker/switch-saves.py). */
module SwitchSaves {
  import opened FileTree
  import opened SaveSlots

  const RESTORE: Path := ["data", "bis", "user.restore"]

  /** Where a restore puts the tree it replaces; `ns` is the clock's reading. */
  function Before(ns: string): Path {
    ["data", "bis", "user.before-restore-" + ns]
  }

  lemma PlacesApart(ns: string)
    ensures Apart(USER, RESTORE) && Apart(USER, Before(ns)) && Apart(RESTORE, Before(ns))
    ensures Apart(BACKUPS, RESTORE) && Apart(BACKUPS, Before(ns))
    ensures USER[..2] == RESTORE[..2] == Before(ns)[..2]
  {
    assert |USER[2]| == 4 && |RESTORE[2]| == 12 && Before(ns)[2][5] == 'b' && RESTORE[2][5] == 'r';
    assert |BACKUPS[0]| == 7 && |USER[0]| == 4;
  }

  // ---- backup ----------------------------------------------------------------

  datatype BackedUp = NoData | Done(at: Path) | Failed

  /** What a step of a backup may leave: nothing changed but a new entry among the
      backups, which is a part of the user tree. */
  ghost predicate BackupStep(t: Tree, before: Tree) {
    && (forall r :: Apart(r, BACKUPS) ==> Sub(t, r) == Sub(before, r))
    && (forall name :: BACKUPS + [name] in before ==> Sub(t, BACKUPS + [name]) == Sub(before, BACKUPS + [name]))
    && (forall name :: BACKUPS + [name] !in before ==> PartialCopy(Sub(t, BACKUPS + [name]), Sub(before, USER)))
  }

  ghost predicate AllBackupSteps(log: seq<Tree>, from: nat, before: Tree) {
    forall i :: from <= i < |log| ==> BackupStep(log[i], before)
  }

  /** Both names a backup could take are taken. */
  predicate NamesTaken(t: Tree, stamp: string, ns: string) {
    BACKUPS + [stamp] in t && BACKUPS + [stamp + "-" + ns] in t
  }

  predicate NoBackupCan(t: Tree, stamp: string, ns: string) {
    !NoFileAbove(t, BACKUPS) || NamesTaken(t, stamp, ns) || (USER in t && t[USER].File?)
  }

  /** A full copy of the user tree under a name no backup has; only a finished one
      is reported, but one half copied is listed too. Earlier backups are never touched. It
      fails only when an outside call does, a file stands where the backups go, both its
      names are taken, or the user tree is not a directory. */
  method Backup(disk: Disk, stamp: string, ns: string) returns (r: BackedUp)
    requires disk.Valid()
    modifies disk
    ensures disk.Valid() && disk.Grown()
    ensures AllBackupSteps(disk.log, old(|disk.log|), old(disk.root))
    ensures BackupStep(disk.root, old(disk.root))
    ensures ListedWhileCopied(disk.log, old(|disk.log|), old(disk.root))
    ensures r.NoData? <==> USER !in old(disk.root)
    ensures r.Done? ==>
              && (r.at == BACKUPS + [stamp] || r.at == BACKUPS + [stamp + "-" + ns])
              && r.at !in old(disk.root) && Sub(disk.root, r.at) == Sub(old(disk.root), USER)
              && old(disk.root)[USER].Dir?
    ensures r.Done? ==> [] in disk.root && disk.root[[]].Dir?
    ensures r.Failed? ==> disk.faults > old(disk.faults) || NoBackupCan(old(disk.root), stamp, ns)
  {
    hide Sub, Graft, BackupStep, AllBackupSteps, NoFileAbove, Rooted, SomeDirs, WithDirs, HasParent, NamesTaken,
      ListedWhileCopied;
    ghost var t0, from := disk.root, |disk.log|;
    NoBackupStep(disk.log, t0);
    NothingListed(disk.log, t0);
    if USER !in disk.root {
      return NoData;
    }
    var ok := disk.MakeDirs(BACKUPS);
    DirsAreBackupSteps(disk.log, from, disk.root, t0);
    if !ok {
      NothingListed(disk.log, disk.root);
      ListedFromTheCopyOn(disk.log, disk.log, from, disk.root, t0);
      return Failed;
    }
    var name := if BACKUPS + [stamp] in disk.root then stamp + "-" + ns else stamp;
    ghost var t1, early := disk.root, disk.log;
    BackupsMade(t0, stamp, ns);
    ok := CopyUser(disk, name);
    SameBackupNames(disk.log, |early|, disk.root, t1, t0);
    EarlyThenNew(disk.log, early, from, t0);
    ListedFromTheCopyOn(disk.log, early, from, t1, t0);
    return if ok then Done(BACKUPS + [name]) else Failed;
  }

  /** The copy alone. */
  method CopyUser(disk: Disk, name: string) returns (ok: bool)
    requires disk.Valid() && USER in disk.root && HasParent(disk.root, BACKUPS + [name]) && TopIsDir(disk.root)
    modifies disk
    ensures disk.Valid() && disk.Grown()
    ensures AllBackupSteps(disk.log, old(|disk.log|), old(disk.root)) && BackupStep(disk.root, old(disk.root))
    ensures ListedWhileCopied(disk.log, old(|disk.log|), old(disk.root))
    ensures ok ==> BACKUPS + [name] !in old(disk.root) && TopIsDir(disk.root) && old(disk.root)[USER].Dir?
                   && Sub(disk.root, BACKUPS + [name]) == Sub(old(disk.root), USER)
    ensures !ok ==> disk.faults > old(disk.faults) || BACKUPS + [name] in old(disk.root) || old(disk.root)[USER].File?
  {
    hide Sub, Graft, SameOutside, Confined, BackupStep, AllBackupSteps, Rooted, Copying, HasParent, ListedWhileCopied;
    ghost var base, from := disk.root, |disk.log|;
    var target := BACKUPS + [name];
    NoBackupStep(disk.log, base);
    NothingListed(disk.log, base);
    RootedSub(base, USER);
    ThereNow(base, USER);
    ok := disk.CopyTree(Sub(disk.root, USER), target);
    if target !in base {
      TargetIsABackupStep(disk.log, from, disk.root, base, name);
      APartIsListedIff(disk.log, from, base, name);
    }
    if ok {
      SubOfGraft(base, target, Sub(base, USER));
      TopOutside(disk.root, base, target);
    }
  }

  /** Steps of a copy made after the directory of the backups are steps of the backup. */
  lemma SameBackupNames(log: seq<Tree>, from: nat, after: Tree, mid: Tree, before: Tree)
    requires AllBackupSteps(log, from, mid) && BackupStep(after, mid) && BackupStep(mid, before)
    requires forall name :: BACKUPS + [name] in mid <==> BACKUPS + [name] in before
    requires Sub(mid, USER) == Sub(before, USER)
    ensures AllBackupSteps(log, from, before) && BackupStep(after, before)
  {
    hide Sub, Apart, PartialCopy;
    forall t | BackupStep(t, mid)
      ensures BackupStep(t, before)
    {
    }
  }

  lemma BackupsMade(t: Tree, stamp: string, ns: string)
    requires NoFileAbove(t, BACKUPS)
    ensures var made := WithDirs(t, BACKUPS);
            && TopIsDir(made) && (USER in t ==> USER in made && made[USER] == t[USER])
            && HasParent(made, BACKUPS + [stamp]) && HasParent(made, BACKUPS + [stamp + "-" + ns])
    ensures NamesTaken(t, stamp, ns) || !(BACKUPS + [stamp] in t && BACKUPS + [stamp + "-" + ns] in t)
  {
    assert (BACKUPS + [stamp])[..1] == (BACKUPS + [stamp + "-" + ns])[..1] == BACKUPS == BACKUPS[..1];
    assert BACKUPS[..0] == [];
  }

  /** The entry is among the backups at some step; and at some step without being the whole
      user tree. */
  ghost predicate Listed(log: seq<Tree>, from: nat, at: Path) {
    exists i :: from <= i < |log| && at in log[i]
  }

  ghost predicate PartListed(log: seq<Tree>, from: nat, at: Path, user: Tree) {
    exists i :: from <= i < |log| && at in log[i] && Sub(log[i], at) != user
  }

  /** A new backup is listed half copied if and only if it is listed at all and the user tree
      is more than one bare directory. */
  ghost predicate ListedWhileCopied(log: seq<Tree>, from: nat, before: Tree) {
    forall name :: BACKUPS + [name] !in before ==>
        (PartListed(log, from, BACKUPS + [name], Sub(before, USER))
         <==> Listed(log, from, BACKUPS + [name]) && Sub(before, USER) != BARE)
  }

  /** So it is with the steps of a copy, the first of which makes the bare directory of the
      new backup under its final name. */
  lemma APartIsListedIff(log: seq<Tree>, from: nat, base: Tree, name: string)
    requires Rooted(base) && HasParent(base, BACKUPS + [name]) && BACKUPS + [name] !in base
    requires Copying(log, from, base, BACKUPS + [name], Sub(base, USER))
    requires |log| > from ==> log[from] == Graft(base, BACKUPS + [name], BARE)
    ensures ListedWhileCopied(log, from, base)
  {
    hide Sub, Graft, Rooted, SameOutside, HasParent, PartialCopy;
    var target, user := BACKUPS + [name], Sub(base, USER);
    forall other | BACKUPS + [other] !in base
      ensures PartListed(log, from, BACKUPS + [other], user)
              <==> Listed(log, from, BACKUPS + [other]) && user != BARE
    {
      var at := BACKUPS + [other];
      if other == name {
        if user == BARE {
          forall i | from <= i < |log| && at in log[i]
            ensures Sub(log[i], at) == user
          {
            ThereNow(log[i], at);
            PartsOfBare(Sub(log[i], at));
          }
        } else if |log| > from {
          SubOfGraft(base, target, BARE);
          ThereNow(log[from], target);
          assert at in log[from] && Sub(log[from], at) != user;
        }
      } else {
        forall i | from <= i < |log|
          ensures at !in log[i]
        {
          assert at[1] == other && target[1] == name;
          SameOutsideElsewhere(log[i], base, target, at);
          ThereNow(log[i], at);
          ThereNow(base, at);
        }
      }
    }
  }

  lemma PartsOfBare(part: Tree)
    requires PartialCopy(part, BARE) && [] in part
    ensures part == BARE
  {
  }

  /** The directories above the backups list none; what the copy lists, the whole backup
      does. */
  lemma ListedFromTheCopyOn(log: seq<Tree>, early: seq<Tree>, from: nat, mid: Tree, before: Tree)
    requires from <= |early| <= |log| && log[..|early|] == early
    requires forall i :: from <= i < |early| ==> SomeDirs(early[i], before, BACKUPS)
    requires forall name :: BACKUPS + [name] in mid <==> BACKUPS + [name] in before
    requires Sub(mid, USER) == Sub(before, USER) && ListedWhileCopied(log, |early|, mid)
    ensures ListedWhileCopied(log, from, before)
  {
    hide Sub, SomeDirs;
    forall name, i | BACKUPS + [name] !in before && from <= i < |early|
      ensures BACKUPS + [name] !in log[i]
    {
      assert log[i] == log[..|early|][i];
      DirsElsewhere(log[i], before, BACKUPS, BACKUPS + [name]);
      ThereNow(log[i], BACKUPS + [name]);
      ThereNow(before, BACKUPS + [name]);
    }
  }

  lemma NothingListed(log: seq<Tree>, t: Tree)
    ensures ListedWhileCopied(log, |log|, t)
  {
  }

  lemma NoBackupStep(log: seq<Tree>, t: Tree)
    requires Rooted(t)
    ensures BackupStep(t, t) && AllBackupSteps(log, |log|, t)
  {
    hide Rooted;
    forall name | BACKUPS + [name] !in t
      ensures Sub(t, BACKUPS + [name]) == map[]
    {
      RootedSub(t, BACKUPS + [name]);
    }
  }

  lemma BackupNameApart(name: string, r: Path)
    requires Apart(r, BACKUPS)
    ensures Apart(BACKUPS + [name], r)
  {
    var p := BACKUPS + [name];
    assert p[..1] == BACKUPS;
    assert |r| >= 1 ==> r[..1] == [r[0]];
  }

  lemma DirsAreBackupSteps(log: seq<Tree>, from: nat, after: Tree, before: Tree)
    requires forall i :: from <= i < |log| ==> SomeDirs(log[i], before, BACKUPS)
    requires SomeDirs(after, before, BACKUPS) && Rooted(before)
    ensures AllBackupSteps(log, from, before) && BackupStep(after, before)
    ensures forall name :: BACKUPS + [name] in after <==> BACKUPS + [name] in before
    ensures Sub(after, USER) == Sub(before, USER)
  {
    hide Sub, Rooted, SomeDirs;
    TopLevelApart();
    NoBackupStep(log, before);
    forall t | SomeDirs(t, before, BACKUPS)
      ensures BackupStep(t, before)
      ensures forall name :: BACKUPS + [name] in t <==> BACKUPS + [name] in before
      ensures Sub(t, USER) == Sub(before, USER)
    {
      forall r: Path | !(r <= BACKUPS)
        ensures Sub(t, r) == Sub(before, r)
      {
        DirsElsewhere(t, before, BACKUPS, r);
      }
      forall name
        ensures BACKUPS + [name] in t <==> BACKUPS + [name] in before
      {
        ThereNow(t, BACKUPS + [name]);
        ThereNow(before, BACKUPS + [name]);
      }
    }
  }

  lemma TargetIsABackupStep(log: seq<Tree>, from: nat, after: Tree, base: Tree, name: string)
    requires Copying(log, from, base, BACKUPS + [name], Sub(base, USER)) && Rooted(base)
    requires log != [] && log[|log| - 1] == after && (from < |log| || after == base)
    requires BACKUPS + [name] !in base
    ensures AllBackupSteps(log, from, base) && BackupStep(after, base)
  {
    hide Sub, Cut, PartialCopy, Rooted, SameOutside;
    NoBackupStep(log, base);
    var target := BACKUPS + [name];
    forall t | SameOutside(t, base, target) && PartialCopy(Sub(t, target), Sub(base, USER))
      ensures BackupStep(t, base)
    {
      forall r | Apart(r, BACKUPS)
        ensures Sub(t, r) == Sub(base, r)
      {
        BackupNameApart(name, r);
        SameOutsideElsewhere(t, base, target, r);
      }
      forall other | other != name
        ensures Sub(t, BACKUPS + [other]) == Sub(base, BACKUPS + [other])
      {
        assert (BACKUPS + [other])[1] == other && target[1] == name;
        SameOutsideElsewhere(t, base, target, BACKUPS + [other]);
      }
    }
  }

  lemma EarlyThenNew(log: seq<Tree>, early: seq<Tree>, from: nat, before: Tree)
    requires from <= |early| <= |log| && log[..|early|] == early
    requires AllBackupSteps(early, from, before) && AllBackupSteps(log, |early|, before)
    ensures AllBackupSteps(log, from, before)
  {
    hide BackupStep;
    forall i | from <= i < |early|
      ensures log[i] == early[i]
    {
      assert log[i] == log[..|early|][i];
    }
  }

  // ---- restore ---------------------------------------------------------------

  datatype RestoreOutcome = Restored | NotListed | Unknown | NeedsInspection | Broken

  /** A single path segment that names an entry and not a way out. */
  predicate PlainName(name: string) {
    '/' !in name && name != "." && name != ".."
  }

  /** The old user tree is whole: in place, or moved aside. */
  ghost predicate Safe(t: Tree, user: Tree, ns: string) {
    Sub(t, USER) == user || Sub(t, Before(ns)) == user
  }

  /** The user tree can be moved aside: it is there, and nothing is where it would go. */
  predicate Ready(t: Tree, ns: string) {
    USER in t && Before(ns) !in t
  }

  lemma ReadyCan(t: Tree, ns: string)
    requires Ready(t, ns) && Rooted(t)
    ensures CanRename(t, USER, Before(ns)) && NoFileAbove(t, RESTORE[..2])
  {
    PlacesApart(ns);
    assert Before(ns)[..2] == USER[..2] == RESTORE[..2];
    forall n | 0 <= n <= 2
      ensures RESTORE[..2][..n] == USER[..n]
    {
    }
  }

  lemma ReadyElsewhere(after: Tree, before: Tree, ns: string)
    requires Sub(after, USER) == Sub(before, USER) && Sub(after, Before(ns)) == Sub(before, Before(ns))
    ensures Ready(after, ns) <==> Ready(before, ns)
  {
    hide Sub, Before;
    ThereNow(before, USER);
    ThereNow(after, USER);
    ThereNow(before, Before(ns));
    ThereNow(after, Before(ns));
  }

  /** The backups are all as they were. */
  ghost predicate SameBackups(t: Tree, before: Tree) {
    forall name :: Sub(t, BACKUPS + [name]) == Sub(before, BACKUPS + [name])
  }

  ghost predicate AllSame(log: seq<Tree>, from: nat, after: Tree, before: Tree) {
    SameBackups(after, before) && forall i :: from <= i < |log| ==> SameBackups(log[i], before)
  }

  lemma SameChain(log: seq<Tree>, early: seq<Tree>, from: nat, after: Tree, mid: Tree, before: Tree)
    requires from <= |early| <= |log| && log[..|early|] == early
    requires AllSame(early, from, mid, before) && AllSame(log, |early|, after, mid)
    ensures AllSame(log, from, after, before)
  {
    hide Sub;
    forall i | from <= i < |log|
      ensures SameBackups(log[i], before)
    {
      if i < |early| {
        assert log[i] == log[..|early|][i] == early[i];
      } else {
        assert SameBackups(log[i], mid);
      }
    }
  }

  lemma BackupApart(name: string, ns: string)
    ensures Apart(BACKUPS + [name], USER) && Apart(BACKUPS + [name], RESTORE) && Apart(BACKUPS + [name], Before(ns))
    ensures !(BACKUPS + [name] <= RESTORE[..2])
  {
    var p := BACKUPS + [name];
    assert p[0] == BACKUPS[0] && |BACKUPS[0]| == 7 && |USER[0]| == |RESTORE[0]| == |Before(ns)[0]| == 4;
    assert RESTORE[..2][0] == RESTORE[0];
  }

  lemma NoneChanged(log: seq<Tree>, t: Tree)
    ensures AllSame(log, |log|, t, t)
  {
  }

  lemma DirsAreSame(log: seq<Tree>, from: nat, after: Tree, before: Tree)
    requires forall i :: from <= i < |log| ==> SomeDirs(log[i], before, RESTORE[..2])
    requires SomeDirs(after, before, RESTORE[..2])
    ensures AllSame(log, from, after, before)
  {
    hide Sub, SomeDirs;
    forall t, name | SomeDirs(t, before, RESTORE[..2])
      ensures Sub(t, BACKUPS + [name]) == Sub(before, BACKUPS + [name])
    {
      BackupApart(name, "");
      DirsElsewhere(t, before, RESTORE[..2], BACKUPS + [name]);
    }
  }

  lemma CopyIsSame(log: seq<Tree>, from: nat, after: Tree, base: Tree)
    requires Confined(log, from, base, RESTORE) && SameOutside(after, base, RESTORE)
    ensures AllSame(log, from, after, base)
  {
    hide Sub, Cut, SameOutside;
    forall t, name | SameOutside(t, base, RESTORE)
      ensures Sub(t, BACKUPS + [name]) == Sub(base, BACKUPS + [name])
    {
      BackupApart(name, "");
      SameOutsideElsewhere(t, base, RESTORE, BACKUPS + [name]);
    }
  }

  lemma RenameIsSame(t: Tree, from: Path, to: Path, ns: string)
    requires from == USER || from == RESTORE || from == Before(ns)
    requires to == USER || to == Before(ns)
    ensures SameBackups(Renamed(t, from, to), t)
  {
    hide Sub, Renamed, Before;
    forall name
      ensures Sub(Renamed(t, from, to), BACKUPS + [name]) == Sub(t, BACKUPS + [name])
    {
      BackupApart(name, ns);
      RenamedElsewhere(t, from, to, BACKUPS + [name]);
    }
  }

  /** A whole copy of a tree is among the backups, under a name that none had: the stamp, or
      the stamp with the clock's reading. */
  ghost predicate NewBackup(t: Tree, before: Tree, stamp: string, ns: string) {
    || (BACKUPS + [stamp] !in before && Sub(t, BACKUPS + [stamp]) == Sub(before, USER))
    || (BACKUPS + [stamp + "-" + ns] !in before && Sub(t, BACKUPS + [stamp + "-" + ns]) == Sub(before, USER))
  }

  /** The live tree is as it was, or there is a new whole backup of it. */
  ghost predicate KeptOrBackedUp(t: Tree, before: Tree, stamp: string, ns: string) {
    Sub(t, USER) == Sub(before, USER) || NewBackup(t, before, stamp, ns)
  }

  /** The steps of a backup keep the live tree; those after a finished one keep the backup. */
  lemma BackedUpSteps(log: seq<Tree>, early: seq<Tree>, from: nat, after: Tree, mid: Tree, before: Tree,
                      stamp: string, ns: string)
    requires from <= |early| <= |log| && log[..|early|] == early
    requires AllBackupSteps(early, from, before) && NewBackup(mid, before, stamp, ns)
    requires AllSame(log, |early|, after, mid)
    ensures forall i :: from <= i < |log| ==> KeptOrBackedUp(log[i], before, stamp, ns)
    ensures NewBackup(after, before, stamp, ns)
  {
    hide Sub, PartialCopy;
    TopLevelApart();
    forall i | from <= i < |log|
      ensures KeptOrBackedUp(log[i], before, stamp, ns)
    {
      if i < |early| {
        assert log[i] == log[..|early|][i] == early[i];
        assert BackupStep(early[i], before);
      } else {
        assert SameBackups(log[i], mid);
      }
    }
  }

  /** Nothing to back up: the live tree is nowhere to be lost. */
  lemma NothingToLose(log: seq<Tree>, from: nat, before: Tree, stamp: string, ns: string)
    requires forall i :: from <= i < |log| ==> Sub(log[i], USER) == Sub(before, USER)
    ensures forall i :: from <= i < |log| ==> KeptOrBackedUp(log[i], before, stamp, ns)
  {
    hide Sub;
  }

  /** Puts a listed backup in the place of the user tree of a stopped game. First the live
      tree is backed up, and nothing touches it until that copy is whole. At every
      step the old tree is whole, in place or moved aside. A restore that says so
      leaves the chosen backup in place; one that does not leaves the old tree in
      place, unless the rename and the rename back both failed. The command line refuses
      an empty name before this is reached. */
  method Restore(disk: Disk, name: string, stamp: string, ns: string) returns (r: RestoreOutcome)
    requires disk.Valid()
    requires name != ""
    modifies disk
    ensures disk.Valid() && disk.Grown()
    ensures forall i :: old(|disk.log|) <= i < |disk.log| ==> Safe(disk.log[i], Sub(old(disk.root), USER), ns)
    ensures USER in old(disk.root) ==>
              forall i :: old(|disk.log|) <= i < |disk.log| ==> KeptOrBackedUp(disk.log[i], old(disk.root), stamp, ns)
    ensures r.Restored? ==> USER in old(disk.root) && NewBackup(disk.root, old(disk.root), stamp, ns)
    ensures r.Restored? ==>
              && Sub(disk.root, USER) == Sub(old(disk.root), BACKUPS + [name])
              && Sub(disk.root, Before(ns)) == Sub(old(disk.root), USER)
    ensures !r.Restored? ==>
              || Sub(disk.root, USER) == Sub(old(disk.root), USER)
              || (Sub(disk.root, Before(ns)) == Sub(old(disk.root), USER) && disk.faults >= old(disk.faults) + 2)
    ensures r.NotListed? <==> !PlainName(name)
    ensures r.Unknown? <==> PlainName(name)
                            && !(BACKUPS + [name] in old(disk.root) && old(disk.root)[BACKUPS + [name]].Dir?)
    ensures r.NotListed? || r.Unknown? ==> disk.root == old(disk.root)
    ensures r.NeedsInspection? ==> RESTORE in old(disk.root)
    ensures r.Restored? ==> RESTORE !in old(disk.root)
    ensures r.Broken? ==>
              disk.faults > old(disk.faults) || NoBackupCan(old(disk.root), stamp, ns) || !Ready(old(disk.root), ns)
  {
    hide Sub, Cut, Graft, SameOutside, Confined, BackupStep, CanRename, Safe, Before, PlainName, Ready, NoBackupCan;
    hide AllBackupSteps, AllSame, NewBackup, KeptOrBackedUp, ListedWhileCopied;
    ghost var t0, from := disk.root, |disk.log|;
    if !PlainName(name) {
      return NotListed;
    }
    var source := BACKUPS + [name];
    if !(source in disk.root && disk.root[source].Dir?) {
      return Unknown;
    }
    var backedUp := Backup(disk, stamp, ns);
    BackupsAreSafe(disk.log, |old(disk.log)|, old(disk.root), disk.root, name, ns);
    BackupStepsKeep(disk.log, from, t0, stamp, ns);
    if backedUp.Failed? {
      return Broken;
    }
    RestoreAfterBackup(disk.root, old(disk.root), ns);
    if RESTORE in disk.root {
      return NeedsInspection;
    }
    ghost var t1, early := disk.root, disk.log;
    SameUser(t1, t0);
    if backedUp.Done? {
      DoneIsNew(t1, t0, backedUp.at, stamp, ns);
    }
    ThereNow(old(disk.root), source);
    ThereNow(disk.root, source);
    r := CopyAndSwap(disk, source, ns);
    assert disk.log[..|early|] == early;
    if backedUp.Done? {
      BackedUpSteps(disk.log, early, from, disk.root, t1, t0, stamp, ns);
    }
    SafeChain(disk.log, early, |old(disk.log)|, Sub(old(disk.root), USER), ns);
  }

  lemma BackupStepsKeep(log: seq<Tree>, from: nat, before: Tree, stamp: string, ns: string)
    requires AllBackupSteps(log, from, before)
    ensures forall i :: from <= i < |log| ==> KeptOrBackedUp(log[i], before, stamp, ns)
  {
    hide Sub, PartialCopy;
    TopLevelApart();
    forall i | from <= i < |log|
      ensures KeptOrBackedUp(log[i], before, stamp, ns)
    {
      assert BackupStep(log[i], before);
    }
  }

  lemma DoneIsNew(t: Tree, before: Tree, at: Path, stamp: string, ns: string)
    requires (at == BACKUPS + [stamp] || at == BACKUPS + [stamp + "-" + ns]) && at !in before
    requires Sub(t, at) == Sub(before, USER)
    ensures NewBackup(t, before, stamp, ns)
  {
  }

  lemma RestoreAfterBackup(after: Tree, before: Tree, ns: string)
    requires BackupStep(after, before)
    ensures RESTORE in after <==> RESTORE in before
    ensures Ready(before, ns) <==> Ready(after, ns)
  {
    hide Sub, Ready;
    PlacesApart(ns);
    TopLevelApart();
    ThereNow(before, RESTORE);
    ThereNow(after, RESTORE);
    ReadyElsewhere(after, before, ns);
  }

  /** The chosen tree copied beside the live one, then put in its place. */
  method CopyAndSwap(disk: Disk, source: Path, ns: string) returns (r: RestoreOutcome)
    requires disk.Valid()
    requires RESTORE !in disk.root && source in disk.root && disk.root[source].Dir? && BACKUPS <= source
    modifies disk
    ensures disk.Valid() && disk.Grown()
    ensures forall i :: old(|disk.log|) <= i < |disk.log| ==> Safe(disk.log[i], Sub(old(disk.root), USER), ns)
    ensures AllSame(disk.log, old(|disk.log|), disk.root, old(disk.root))
    ensures r == Restored || r == Broken
    ensures r.Restored? ==> USER in old(disk.root)
    ensures r.Restored? ==>
              && Sub(disk.root, USER) == Sub(old(disk.root), source)
              && Sub(disk.root, Before(ns)) == Sub(old(disk.root), USER)
    ensures r.Broken? ==>
              || Sub(disk.root, USER) == Sub(old(disk.root), USER)
              || (Sub(disk.root, Before(ns)) == Sub(old(disk.root), USER) && disk.faults >= old(disk.faults) + 2)
    ensures r.Broken? ==> disk.faults > old(disk.faults) || !Ready(old(disk.root), ns)
  {
    hide Sub, Safe, Before, Ready, Rooted, AllSame;
    ghost var base, before := disk.root, disk.log;
    var ok := CopyBeside(disk, source, ns);
    if !ok {
      return Broken;
    }
    ghost var mid, early := disk.root, disk.log;
    r := Swap(disk, ns);
    SameChain(disk.log, early, |before|, disk.root, mid, base);
    SafeChain(disk.log, early, |before|, Sub(base, USER), ns);
  }

  /** The copy alone, with the directories above it. */
  method CopyBeside(disk: Disk, source: Path, ns: string) returns (ok: bool)
    requires disk.Valid()
    requires RESTORE !in disk.root && source in disk.root && disk.root[source].Dir? && BACKUPS <= source
    modifies disk
    ensures disk.Valid() && disk.Grown()
    ensures forall i :: old(|disk.log|) <= i < |disk.log| ==> Safe(disk.log[i], Sub(old(disk.root), USER), ns)
    ensures AllSame(disk.log, old(|disk.log|), disk.root, old(disk.root))
    ensures Sub(disk.root, USER) == Sub(old(disk.root), USER) && (USER in disk.root <==> USER in old(disk.root))
    ensures ok ==> Sub(disk.root, RESTORE) == Sub(old(disk.root), source) && RESTORE in disk.root
    ensures !ok ==> disk.faults > old(disk.faults) || !Ready(old(disk.root), ns)
    ensures Ready(old(disk.root), ns) ==> Ready(disk.root, ns)
  {
    hide Sub, Cut, Graft, SameOutside, Confined, Safe, Before, Ready, Rooted, Copying, SomeDirs, WithDirs, NoFileAbove,
      HasParent, AllSame;
    ghost var t0, from := disk.root, |disk.log|;
    var chosen := Sub(disk.root, source);
    RootedSub(t0, source);
    ThereNow(t0, source);
    if Ready(t0, ns) {
      ReadyCan(t0, ns);
    }
    ok := disk.MakeDirs(RESTORE[..2]);
    DirsAreSafe(disk.log, from, disk.root, t0, ns);
    DirsAreSame(disk.log, from, disk.root, t0);
    SameUser(disk.root, t0);
    if !ok {
      return;
    }
    ghost var t1, early := disk.root, disk.log;
    DirsForRestore(t0);
    ok := disk.CopyTree(chosen, RESTORE);
    CopyIsSafe(disk.log, |early|, disk.root, t1, ns);
    CopyIsSame(disk.log, |early|, disk.root, t1);
    SameChain(disk.log, early, from, disk.root, t1, t0);
    SameUser(disk.root, t0);
    SafeChain(disk.log, early, from, Sub(t0, USER), ns);
    ReadyElsewhere(disk.root, t0, ns);
    SubOfGraft(t1, RESTORE, chosen);
    ThereNow(disk.root, RESTORE);
  }

  lemma SameUser(t: Tree, before: Tree)
    ensures Sub(t, USER) == Sub(before, USER) ==> (USER in t <==> USER in before)
  {
    ThereNow(t, USER);
    ThereNow(before, USER);
  }

  lemma DirsForRestore(t: Tree)
    requires NoFileAbove(t, RESTORE[..2]) && RESTORE !in t
    ensures HasParent(WithDirs(t, RESTORE[..2]), RESTORE) && RESTORE !in WithDirs(t, RESTORE[..2])
  {
    var parent := RESTORE[..2];
    assert parent[..2] == parent && |RESTORE| == 3;
  }

  lemma DirsAreSafe(log: seq<Tree>, from: nat, after: Tree, before: Tree, ns: string)
    requires forall i :: from <= i < |log| ==> SomeDirs(log[i], before, RESTORE[..2])
    requires SomeDirs(after, before, RESTORE[..2])
    ensures forall i :: from <= i < |log| ==> Safe(log[i], Sub(before, USER), ns)
    ensures Sub(after, USER) == Sub(before, USER) && Sub(after, Before(ns)) == Sub(before, Before(ns))
    ensures Ready(after, ns) <==> Ready(before, ns)
  {
    hide Sub, SomeDirs;
    forall t | SomeDirs(t, before, RESTORE[..2])
      ensures Sub(t, USER) == Sub(before, USER) && Sub(t, Before(ns)) == Sub(before, Before(ns))
    {
      DirsElsewhere(t, before, RESTORE[..2], USER);
      DirsElsewhere(t, before, RESTORE[..2], Before(ns));
    }
    ReadyElsewhere(after, before, ns);
  }

  /** The two renames, and the rename back. */
  method Swap(disk: Disk, ns: string) returns (r: RestoreOutcome)
    requires disk.Valid()
    requires RESTORE in disk.root
    modifies disk
    ensures disk.Valid() && disk.Grown()
    ensures forall i :: old(|disk.log|) <= i < |disk.log| ==> Safe(disk.log[i], Sub(old(disk.root), USER), ns)
    ensures AllSame(disk.log, old(|disk.log|), disk.root, old(disk.root))
    ensures r == Restored || r == Broken
    ensures r.Restored? ==> USER in old(disk.root)
    ensures r.Restored? ==>
              && Sub(disk.root, USER) == Sub(old(disk.root), RESTORE)
              && Sub(disk.root, Before(ns)) == Sub(old(disk.root), USER)
    ensures r.Broken? ==>
              || Sub(disk.root, USER) == Sub(old(disk.root), USER)
              || (Sub(disk.root, Before(ns)) == Sub(old(disk.root), USER) && disk.faults >= old(disk.faults) + 2)
    ensures r.Broken? ==> disk.faults > old(disk.faults) || !Ready(old(disk.root), ns)
  {
    hide Sub, Cut, Graft, CanRename, Renamed, Apart, Before, Safe, Ready, AllSame;
    NoneChanged(disk.log, disk.root);
    if Ready(disk.root, ns) {
      ReadyCan(disk.root, ns);
    }
    ghost var t0, log0, user := disk.root, disk.log, Sub(disk.root, USER);
    var ok := disk.Rename(USER, Before(ns));
    if !ok {
      return Broken;
    }
    MovedAside(t0, ns);
    MovedWasThere(t0, ns);
    RenameIsSame(t0, USER, Before(ns), ns);
    OneRename(disk.log, |log0|, disk.root, t0);
    ghost var t1, log1 := disk.root, disk.log;
    r := PutInPlace(disk, ns);
    SameChain(disk.log, log1, |log0|, disk.root, t1, t0);
    assert log1[..|log0|] == log0;
    SafeChain(disk.log, log1, |log0|, user, ns);
  }

  lemma MovedWasThere(t: Tree, ns: string)
    requires CanRename(t, USER, Before(ns))
    ensures USER in t
  {
  }

  lemma OneRename(log: seq<Tree>, from: nat, after: Tree, before: Tree)
    requires |log| == from + 1 && log[from] == after && SameBackups(after, before)
    ensures AllSame(log, from, after, before)
  {
    hide SameBackups;
  }

  /** With the old tree aside: the restored one takes its place, or the old one
      comes back. */
  method PutInPlace(disk: Disk, ns: string) returns (r: RestoreOutcome)
    requires disk.Valid()
    requires CanRename(disk.root, RESTORE, USER) && CanRename(disk.root, Before(ns), USER)
    modifies disk
    ensures disk.Valid() && disk.Grown()
    ensures forall i :: old(|disk.log|) <= i < |disk.log| ==> Safe(disk.log[i], Sub(old(disk.root), Before(ns)), ns)
    ensures AllSame(disk.log, old(|disk.log|), disk.root, old(disk.root))
    ensures r == Restored || r == Broken
    ensures r.Restored? ==>
              && Sub(disk.root, USER) == Sub(old(disk.root), RESTORE)
              && Sub(disk.root, Before(ns)) == Sub(old(disk.root), Before(ns))
    ensures r.Broken? ==>
              || Sub(disk.root, USER) == Sub(old(disk.root), Before(ns))
              || (Sub(disk.root, Before(ns)) == Sub(old(disk.root), Before(ns)) && disk.faults >= old(disk.faults) + 2)
    ensures r.Broken? ==> disk.faults > old(disk.faults)
  {
    hide Sub, Cut, Graft, CanRename, Renamed, Apart, Before, AllSame, SameBackups;
    ghost var t0, from := disk.root, |disk.log|;
    NoneChanged(disk.log, disk.root);
    PutBack(disk.root, ns);
    RenameIsSame(t0, RESTORE, USER, ns);
    RenameIsSame(t0, Before(ns), USER, ns);
    var ok := disk.Rename(RESTORE, USER);
    if ok {
      OneRename(disk.log, from, disk.root, t0);
      return Restored;
    }
    ok := disk.Rename(Before(ns), USER);
    if ok {
      OneRename(disk.log, from, disk.root, t0);
    }
    return Broken;
  }

  lemma PutBack(t: Tree, ns: string)
    ensures Sub(Renamed(t, RESTORE, USER), USER) == Sub(t, RESTORE)
    ensures Sub(Renamed(t, RESTORE, USER), Before(ns)) == Sub(t, Before(ns))
    ensures Sub(Renamed(t, Before(ns), USER), USER) == Sub(t, Before(ns))
  {
    hide Sub, Renamed, Before;
    PlacesApart(ns);
    RenamedPlaces(t, RESTORE, USER);
    RenamedElsewhere(t, RESTORE, USER, Before(ns));
    RenamedPlaces(t, Before(ns), USER);
  }

  lemma MovedAside(t: Tree, ns: string)
    requires RESTORE in t && CanRename(t, USER, Before(ns))
    ensures var after := Renamed(t, USER, Before(ns));
            && Sub(after, Before(ns)) == Sub(t, USER) && Sub(after, RESTORE) == Sub(t, RESTORE)
            && Safe(after, Sub(t, USER), ns)
            && CanRename(after, RESTORE, USER) && CanRename(after, Before(ns), USER)
  {
    hide Sub, Renamed, Before, CanRename;
    PlacesApart(ns);
    RenamedPlaces(t, USER, Before(ns));
    RenamedElsewhere(t, USER, Before(ns), RESTORE);
    CanSwap(t, ns);
  }

  /** Once the old tree is aside, the system lets either tree take its place. */
  lemma CanSwap(t: Tree, ns: string)
    requires RESTORE in t && CanRename(t, USER, Before(ns))
    ensures CanRename(Renamed(t, USER, Before(ns)), RESTORE, USER)
    ensures CanRename(Renamed(t, USER, Before(ns)), Before(ns), USER)
  {
    PlacesApart(ns);
    var after := Renamed(t, USER, Before(ns));
    RenamedPlaces(t, USER, Before(ns));
    assert USER + [] == USER && Before(ns) + [] == Before(ns);
    assert [] in Sub(t, USER);
    assert [] in Sub(after, Before(ns)) && [] !in Sub(after, USER);
    assert !(USER <= USER[..2]) && !(Before(ns) <= USER[..2]);
    assert USER[..2] in Cut(t, USER) && USER[..2] in after;
    assert RESTORE in Cut(t, USER) && RESTORE in after;
  }

  lemma BackupsAreSafe(log: seq<Tree>, from: nat, before: Tree, after: Tree, name: string, ns: string)
    requires AllBackupSteps(log, from, before)
    requires BackupStep(after, before) && BACKUPS + [name] in before
    ensures forall i :: from <= i < |log| ==> Safe(log[i], Sub(before, USER), ns)
    ensures Sub(after, USER) == Sub(before, USER)
    ensures Sub(after, BACKUPS + [name]) == Sub(before, BACKUPS + [name])
  {
    hide Sub;
    TopLevelApart();
    forall i | from <= i < |log|
      ensures Safe(log[i], Sub(before, USER), ns)
    {
      assert BackupStep(log[i], before);
    }
  }

  lemma CopyIsSafe(log: seq<Tree>, from: nat, after: Tree, base: Tree, ns: string)
    requires Confined(log, from, base, RESTORE) && SameOutside(after, base, RESTORE)
    ensures forall i :: from <= i < |log| ==> Safe(log[i], Sub(base, USER), ns)
    ensures Sub(after, USER) == Sub(base, USER) && Sub(after, Before(ns)) == Sub(base, Before(ns))
  {
    hide Sub, Cut;
    PlacesApart(ns);
    ConfinedElsewhere(log, from, base, RESTORE, USER);
    SameOutsideElsewhere(after, base, RESTORE, USER);
    SameOutsideElsewhere(after, base, RESTORE, Before(ns));
  }

  lemma SafeChain(log: seq<Tree>, early: seq<Tree>, from: nat, user: Tree, ns: string)
    requires from <= |early| <= |log| && log[..|early|] == early
    requires forall i :: from <= i < |early| ==> Safe(early[i], user, ns)
    requires forall i :: |early| <= i < |log| ==> Safe(log[i], user, ns)
    ensures forall i :: from <= i < |log| ==> Safe(log[i], user, ns)
  {
    forall i | from <= i < |early|
      ensures log[i] == early[i]
    {
      assert log[i] == log[..|early|][i];
    }
  }
}
