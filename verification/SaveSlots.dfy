/** The private save slot of a game: its creation from a template and its backups
    (docker/switch-room.py). Every state a crash could leave is in the disk's log. */
module SaveSlots {
  import opened FileTree

  const DATA: Path := ["data"]
  const PENDING: Path := ["data.pending"]
  const USER: Path := ["data", "bis", "user"]
  const BACKUPS: Path := ["backups"]
  const SAVE: Path := ["bis", "user", "save"]

  lemma TopLevelApart()
    ensures Apart(DATA, PENDING) && Apart(BACKUPS, DATA) && Apart(BACKUPS, USER) && Apart(PENDING, USER)
  {
    assert |DATA[0]| == 4 && |PENDING[0]| == 12 && |BACKUPS[0]| == 7 && USER[0] == DATA[0];
  }

  // ---- save banks ------------------------------------------------------------

  /** A data bank of a save container: `bis/user/save/<container>/0` or `/1`. */
  predicate IsBank(t: Tree, k: Path) {
    |k| == 5 && k[..3] == SAVE && (k[4] == "0" || k[4] == "1") && k in t && t[k].Dir?
  }

  predicate InBank(t: Tree, k: Path) {
    |k| >= 6 && IsBank(t, k[..5])
  }

  /** The template with its banks emptied: nothing inside a bank, and everything
      else, the banks themselves and the metadata included. */
  function Emptied(t: Tree): Tree {
    map k | k in t && !InBank(t, k) :: t[k]
  }

  /** What is left of a template: everything but what lies inside directory 0 or 1 of a
      container of its saves. */
  lemma WhatIsEmptied(t: Tree, k: Path)
    ensures k in Emptied(t) <==>
              && k in t
              && !exists container: string, bank: string, entry: string, deeper: Path ::
                   && k == ["bis", "user", "save", container, bank] + [entry] + deeper
                   && (bank == "0" || bank == "1")
                   && ["bis", "user", "save", container, bank] in t && t[["bis", "user", "save", container, bank]].Dir?
    ensures k in Emptied(t) ==> Emptied(t)[k] == t[k]
  {
    if InBank(t, k) {
      assert k[..3] == SAVE && k == ["bis", "user", "save", k[3], k[4]] + [k[5]] + k[6..];
      assert k[..5] == ["bis", "user", "save", k[3], k[4]];
    }
    forall container: string, bank: string, entry: string, deeper: Path
      | && k == ["bis", "user", "save", container, bank] + [entry] + deeper
        && (bank == "0" || bank == "1")
        && ["bis", "user", "save", container, bank] in t && t[["bis", "user", "save", container, bank]].Dir?
      ensures InBank(t, k)
    {
      assert k[..5] == ["bis", "user", "save", container, bank];
      assert k[..5][..3] == SAVE;
    }
  }

  /** The template without some entries of its banks. */
  function Without(t: Tree, gone: set<Path>): Tree {
    map k | k in t && !(|k| >= 6 && k[..6] in gone) :: t[k]
  }

  /** The direct entries of some banks. */
  ghost predicate EntriesOf(t: Tree, banks: set<Path>, gone: set<Path>) {
    forall e :: e in gone <==> e in t && |e| == 6 && e[..5] in banks
  }

  lemma WithoutOneMore(t: Tree, gone: set<Path>, e: Path)
    requires |e| == 6
    ensures Cut(Without(t, gone), e) == Without(t, gone + {e})
  {
    forall k: Path
      ensures e <= k <==> |k| >= 6 && k[..6] == e
    {
    }
  }

  lemma NoneGone(t: Tree)
    ensures Without(t, {}) == t && EntriesOf(t, {}, {})
  {
  }

  /** One more bank is done; its entries are none of those of the other banks. */
  lemma OneMoreBank(t: Tree, done: set<Path>, gone: set<Path>, bank: Path)
    requires EntriesOf(t, done, gone) && bank !in done
    ensures forall e :: e in gone ==> |e| == 6 && e[..5] != bank
    ensures forall more: set<Path> :: (forall e :: e in more <==> e in t && |e| == 6 && e[..5] == bank)
              ==> EntriesOf(t, done + {bank}, gone + more)
  {
  }

  /** An entry not removed yet is still on the disk. */
  lemma EntryIsThere(root: Tree, t: Tree, gone: set<Path>, e: Path)
    requires Sub(root, PENDING) == Without(t, gone) && e in t && |e| == 6 && e !in gone
    ensures PENDING + e in root
  {
    assert e[..6] == e;
    assert e in Without(t, gone);
  }

  lemma CopyStands(root: Tree, t: Tree, gone: set<Path>)
    requires Sub(root, PENDING) == Without(t, gone) && TopIsDir(t) && TopIsDir(root)
    ensures Passable(root)
  {
    ThereNow(root, PENDING);
    assert [] in Without(t, gone);
  }

  lemma WithoutAll(t: Tree, banks: set<Path>, gone: set<Path>)
    requires Rooted(t) && EntriesOf(t, banks, gone) && forall b :: b in banks <==> IsBank(t, b)
    ensures Without(t, gone) == Emptied(t)
  {
    forall k | k in t && |k| >= 6
      ensures k[..6] in gone <==> InBank(t, k)
    {
      assert k[..6][..5] == k[..5];
      if |k| > 6 {
        assert k[..6] in t;
      } else {
        assert k[..6] == k;
      }
    }
  }

  // ---- a slot from the template ----------------------------------------------

  /** No file is at the top of a slot or where its pending copy goes. */
  predicate Passable(t: Tree) {
    ([] in t ==> t[[]].Dir?) && (PENDING in t ==> t[PENDING].Dir?)
  }

  ghost predicate AllPassable(log: seq<Tree>, from: nat) {
    forall i :: from <= i < |log| ==> Passable(log[i])
  }

  lemma RemovalIsPassable(log: seq<Tree>, from: nat, base: Tree)
    requires forall i :: from <= i < |log| ==> Pruned(log[i], base)
    requires Passable(base)
    ensures AllPassable(log, from)
  {
  }

  lemma CopyIsPassable(log: seq<Tree>, from: nat, base: Tree, template: Tree)
    requires Copying(log, from, base, PENDING, template) && TopIsDir(template) && TopIsDir(base)
    ensures AllPassable(log, from)
  {
    hide Sub, SameOutside;
    forall i | from <= i < |log|
      ensures Passable(log[i])
    {
      TopOutside(log[i], base, PENDING);
      ThereNow(log[i], PENDING);
    }
  }

  /** What changes inside the pending copy leaves its top alone. */
  lemma InsideIsPassable(log: seq<Tree>, from: nat, base: Tree, rest: Path)
    requires Confined(log, from, base, PENDING + rest) && rest != [] && Passable(base)
    ensures AllPassable(log, from)
  {
    var place := PENDING + rest;
    assert |place| > 1;
    forall i | from <= i < |log|
      ensures Passable(log[i])
    {
      assert SameOutside(log[i], base, place);
      assert forall k: Path :: |k| <= 1 ==> (k in log[i] <==> k in Cut(log[i], place));
      assert forall k: Path :: |k| <= 1 ==> (k in base <==> k in Cut(base, place));
    }
  }

  lemma PassableChain(log: seq<Tree>, early: seq<Tree>, from: nat)
    requires from <= |early| <= |log| && log[..|early|] == early
    requires AllPassable(early, from) && AllPassable(log, |early|)
    ensures AllPassable(log, from)
  {
    hide Passable;
    forall i | from <= i < |early|
      ensures log[i] == early[i]
    {
      assert log[i] == log[..|early|][i];
    }
  }

  /** A whole copy of the template at the pending place, whatever an interrupted
      attempt left there. */
  method CopyTemplate(disk: Disk, template: Tree) returns (ok: bool)
    requires disk.Valid() && TopIsDir(disk.root) && Rooted(template) && TopIsDir(template)
    modifies disk
    ensures disk.Valid() && disk.Grown()
    ensures Confined(disk.log, old(|disk.log|), old(disk.root), PENDING)
    ensures SameOutside(disk.root, old(disk.root), PENDING)
    ensures AllPassable(disk.log, old(|disk.log|))
    ensures ok ==> Sub(disk.root, PENDING) == template
    ensures ok <==> disk.faults == old(disk.faults)
                    && (PENDING in old(disk.root) ==> old(disk.root)[PENDING].Dir?)
  {
    hide Sub, Cut, Graft, SameOutside, Confined, Rooted, AllPassable, Copying, Pruned;
    ghost var from := |disk.log|;
    NothingYet(disk.log, disk.root, PENDING);
    if PENDING in disk.root {
      ok := disk.RemoveTree(PENDING);
      if old(disk.root)[PENDING].File? {
        NoStates(disk.log);
      } else {
        RemovalIsPassable(disk.log, from, old(disk.root));
      }
      if !ok {
        return;
      }
      NothingLeft(old(disk.root), PENDING);
      TopOutside(disk.root, old(disk.root), PENDING);
    } else {
      NoStates(disk.log);
    }
    ghost var clean, early := disk.root, disk.log;
    assert HasParent(disk.root, PENDING) by {
      assert PENDING[..0] == [];
    }
    ok := disk.CopyTree(template, PENDING);
    CopyIsPassable(disk.log, |early|, clean, template);
    PassableChain(disk.log, early, from);
    assert PENDING + [] == PENDING;
    ConfinedChain(early, disk.log, from, old(disk.root), clean, PENDING, []);
    SameOutsideTwice(disk.root, clean, old(disk.root), PENDING);
    if ok {
      SubOfGraft(clean, PENDING, template);
    }
  }

  lemma NoStates(log: seq<Tree>)
    ensures AllPassable(log, |log|)
  {
  }

  lemma NothingYet(log: seq<Tree>, t: Tree, p: Path)
    ensures Confined(log, |log|, t, p) && SameOutside(t, t, p)
  {
  }

  lemma SameOutsideTwice(a: Tree, b: Tree, c: Tree, p: Path)
    requires SameOutside(a, b, p) && SameOutside(b, c, p)
    ensures SameOutside(a, c, p)
  {
  }

  lemma NothingLeft(t: Tree, p: Path)
    ensures p !in Cut(t, p)
  {
  }

  /** Both data banks of every container emptied, entry by entry. */
  method EmptyBanks(disk: Disk, template: Tree) returns (ok: bool)
    requires disk.Valid() && TopIsDir(disk.root)
    requires Rooted(template) && TopIsDir(template) && Sub(disk.root, PENDING) == template
    modifies disk
    ensures disk.Valid() && disk.Grown()
    ensures Confined(disk.log, old(|disk.log|), old(disk.root), PENDING)
    ensures SameOutside(disk.root, old(disk.root), PENDING)
    ensures AllPassable(disk.log, old(|disk.log|))
    ensures ok ==> Sub(disk.root, PENDING) == Emptied(template)
    ensures ok <==> disk.faults == old(disk.faults)
  {
    hide Sub, Cut, Graft, SameOutside, Confined, Without, EntriesOf, AllPassable, Rooted;
    var banks := set k | k in template && IsBank(template, k);
    ghost var all, done, gone := banks, {}, {};
    NoneGone(template);
    NothingYet(disk.log, disk.root, PENDING);
    NoStates(disk.log);
    while banks != {}
      invariant disk.Valid() && disk.Grown() && disk.faults == old(disk.faults)
      invariant done + banks == all && done !! banks
      invariant Confined(disk.log, old(|disk.log|), old(disk.root), PENDING)
      invariant SameOutside(disk.root, old(disk.root), PENDING)
      invariant AllPassable(disk.log, old(|disk.log|)) && TopIsDir(disk.root)
      invariant EntriesOf(template, done, gone)
      invariant Sub(disk.root, PENDING) == Without(template, gone)
      decreases banks
    {
      var bank :| bank in banks;
      banks := banks - {bank};
      OneMoreBank(template, done, gone, bank);
      var removed: bool;
      ghost var more: set<Path>;
      ghost var early, before := disk.log, disk.root;
      removed, more := EmptyBank(disk, template, bank, gone);
      assert PENDING + [] == PENDING;
      ConfinedChain(early, disk.log, |old(disk.log)|, old(disk.root), before, PENDING, []);
      SameOutsideTwice(disk.root, before, old(disk.root), PENDING);
      PassableChain(disk.log, early, |old(disk.log)|);
      TopOutside(disk.root, before, PENDING);
      if !removed {
        return false;
      }
      done, gone := done + {bank}, gone + more;
    }
    WithoutAll(template, done, gone);
    return true;
  }

  /** One entry, whether it is a directory or a file. */
  method Remove(disk: Disk, p: Path) returns (ok: bool)
    requires disk.Valid()
    requires p in disk.root
    modifies disk
    ensures disk.Valid() && disk.Grown()
    ensures Confined(disk.log, old(|disk.log|), old(disk.root), p) && SameOutside(disk.root, old(disk.root), p)
    ensures ok ==> disk.root == Cut(old(disk.root), p)
    ensures ok <==> disk.faults == old(disk.faults)
  {
    hide Sub, Cut, Graft, SameOutside, Confined;
    if disk.root[p].Dir? {
      ok := disk.RemoveTree(p);
    } else {
      ok := disk.Unlink(p);
    }
  }

  /** One bank; `more` are the entries it held. */
  method EmptyBank(disk: Disk, template: Tree, bank: Path, ghost gone: set<Path>)
      returns (ok: bool, ghost more: set<Path>)
    requires disk.Valid() && TopIsDir(disk.root) && TopIsDir(template)
    requires |bank| == 5 && Sub(disk.root, PENDING) == Without(template, gone)
    requires forall e :: e in gone ==> |e| == 6 && e[..5] != bank
    modifies disk
    ensures disk.Valid() && disk.Grown()
    ensures Confined(disk.log, old(|disk.log|), old(disk.root), PENDING)
    ensures SameOutside(disk.root, old(disk.root), PENDING)
    ensures AllPassable(disk.log, old(|disk.log|))
    ensures forall e :: e in more <==> e in template && |e| == 6 && e[..5] == bank
    ensures ok ==> Sub(disk.root, PENDING) == Without(template, gone + more)
    ensures ok <==> disk.faults == old(disk.faults)
  {
    hide Sub, Cut, Graft, SameOutside, Confined, Without, AllPassable, Rooted, Passable;
    var entries := set k | k in template && |k| == 6 && k[..5] == bank;
    more := entries;
    ghost var cleared: set<Path> := {};
    assert gone + cleared == gone;
    NothingYet(disk.log, disk.root, PENDING);
    NoStates(disk.log);
    while entries != {}
      invariant disk.Valid() && disk.Grown() && disk.faults == old(disk.faults)
      invariant cleared + entries == more && cleared !! entries
      invariant Confined(disk.log, old(|disk.log|), old(disk.root), PENDING)
      invariant SameOutside(disk.root, old(disk.root), PENDING)
      invariant AllPassable(disk.log, old(|disk.log|)) && TopIsDir(disk.root)
      invariant Sub(disk.root, PENDING) == Without(template, gone + cleared)
      decreases entries
    {
      var entry :| entry in entries;
      entries := entries - {entry};
      ghost var before, early := disk.root, disk.log;
      EntryIsThere(before, template, gone + cleared, entry);
      CopyStands(before, template, gone + cleared);
      var removed := Remove(disk, PENDING + entry);
      ConfinedChain(early, disk.log, |old(disk.log)|, old(disk.root), before, PENDING, entry);
      SameOutsideWider(disk.root, before, PENDING, entry);
      SameOutsideTwice(disk.root, before, old(disk.root), PENDING);
      InsideIsPassable(disk.log, |early|, before, entry);
      PassableChain(disk.log, early, |old(disk.log)|);
      TopOutside(disk.root, before, PENDING);
      if !removed {
        return false, more;
      }
      SubAboveCut(before, PENDING, entry);
      WithoutOneMore(template, gone + cleared, entry);
      assert gone + (cleared + {entry}) == gone + cleared + {entry};
      cleared := cleared + {entry};
    }
    return true, more;
  }

  /** The pending copy, complete and with its banks emptied. */
  method BuildPending(disk: Disk, template: Tree) returns (ok: bool)
    requires disk.Valid() && TopIsDir(disk.root) && Rooted(template) && TopIsDir(template)
    modifies disk
    ensures disk.Valid() && disk.Grown()
    ensures Confined(disk.log, old(|disk.log|), old(disk.root), PENDING)
    ensures SameOutside(disk.root, old(disk.root), PENDING)
    ensures AllPassable(disk.log, old(|disk.log|))
    ensures ok ==> Sub(disk.root, PENDING) == Emptied(template)
    ensures ok <==> disk.faults == old(disk.faults)
                    && (PENDING in old(disk.root) ==> old(disk.root)[PENDING].Dir?)
  {
    hide Sub, Cut, Graft, SameOutside, Confined, Emptied, AllPassable, Rooted;
    ok := CopyTemplate(disk, template);
    if ok {
      ghost var early, copied := disk.log, disk.root;
      TopOutside(copied, old(disk.root), PENDING);
      ok := EmptyBanks(disk, template);
      PassableChain(disk.log, early, |old(disk.log)|);
      assert PENDING + [] == PENDING;
      ConfinedChain(early, disk.log, |old(disk.log)|, old(disk.root), copied, PENDING, []);
      SameOutsideTwice(disk.root, copied, old(disk.root), PENDING);
    }
  }

  predicate HasData(t: Tree) {
    DATA in t && t[DATA].Dir?
  }

  /** A file in the way of the slot, of its data or of its pending copy. */
  predicate FileInTheWay(t: Tree) {
    !Passable(t) || (DATA in t && t[DATA].File?)
  }

  /** What one step of the creation of a slot may leave: the data as they were, or,
      where there were none, a full template with its banks emptied; and nothing
      else of the slot changed but the pending copy. */
  ghost predicate SlotStep(t: Tree, before: Tree, template: Tree) {
    && (Sub(t, DATA) == Sub(before, DATA) || (DATA !in before && Sub(t, DATA) == Emptied(template)))
    && (forall r :: Apart(r, DATA) && Apart(r, PENDING) ==> Sub(t, r) == Sub(before, r))
  }

  /** From one step on, all are such steps, and none puts a file in the way. */
  ghost predicate AllSlotSteps(log: seq<Tree>, from: nat, before: Tree, template: Tree) {
    forall i :: from <= i < |log| ==>
      SlotStep(log[i], before, template) && (!FileInTheWay(before) ==> !FileInTheWay(log[i]))
  }

  /** One complete root per slot, never over an existing progression. It always
      finishes unless an outside call fails or a file is in the way, and leaves no file in
      the way at any of its steps. */
  method Initialise(disk: Disk, template: Tree) returns (ok: bool)
    requires disk.Valid() && Rooted(template) && TopIsDir(template)
    modifies disk
    ensures disk.Valid() && disk.Grown()
    ensures HasData(old(disk.root)) ==> ok && disk.root == old(disk.root) && disk.log == old(disk.log)
    ensures AllSlotSteps(disk.log, old(|disk.log|), old(disk.root), template)
    ensures SlotStep(disk.root, old(disk.root), template)
    ensures !HasData(old(disk.root)) ==>
              Sub(disk.root, DATA) == if ok then Emptied(template) else Sub(old(disk.root), DATA)
    ensures disk.faults == old(disk.faults) && !FileInTheWay(old(disk.root)) ==> ok
  {
    hide Sub, Cut, Graft, Emptied, SlotStep, AllSlotSteps, Rooted, CanRename, Renamed, FileInTheWay;
    ghost var t0, from := disk.root, |disk.log|;
    NothingHappened(disk.log, t0, template);
    FileStops(t0);
    if HasData(disk.root) {
      return true;
    }
    ok := Prepare(disk, template);
    if !ok {
      return;
    }
    ghost var t1, early := disk.root, disk.log;
    ok := disk.Rename(PENDING, DATA);
    if ok {
      RenameIsASlotStep(t1, t0, template);
      OneMoreSlotStep(early, from, disk.root, t0, template);
    }
  }

  /** The pending copy, ready to become the data. */
  method Prepare(disk: Disk, template: Tree) returns (ok: bool)
    requires disk.Valid() && Rooted(template) && TopIsDir(template)
    modifies disk
    ensures disk.Valid() && disk.Grown()
    ensures AllSlotSteps(disk.log, old(|disk.log|), old(disk.root), template)
    ensures SlotStep(disk.root, old(disk.root), template) && Sub(disk.root, DATA) == Sub(old(disk.root), DATA)
    ensures ok ==> Sub(disk.root, PENDING) == Emptied(template) && TopIsDir(disk.root)
    ensures ok && !HasData(old(disk.root)) ==> (CanRename(disk.root, PENDING, DATA) <==> DATA !in old(disk.root))
    ensures disk.faults == old(disk.faults) && !FileInTheWay(old(disk.root)) ==> ok
  {
    hide Sub, Cut, Graft, SameOutside, Confined, Emptied, SlotStep, AllSlotSteps, AllPassable, Rooted, SomeDirs,
      WithDirs, CanRename, FileInTheWay, NoFileAbove, Passable, HasData;
    ghost var t0, from := disk.root, |disk.log|;
    FileStops(t0);
    ok := disk.MakeDirs([]);
    DirsAreSlotSteps(disk.log, from, disk.root, t0, template);
    if !ok {
      return;
    }
    ghost var t1, early := disk.root, disk.log;
    TopMade(t0);
    ok := BuildPending(disk, template);
    PendingIsASlotStep(disk.log, |early|, disk.root, t1, t0, template);
    SlotStepsChain(disk.log, early, from, t0, template);
    if ok {
      TopOutside(disk.root, t1, PENDING);
      ReadyToRename(disk.root, t0, template);
    }
  }

  lemma FileStops(t: Tree)
    ensures NoFileAbove(t, []) || FileInTheWay(t)
    ensures PENDING in t && t[PENDING].File? ==> FileInTheWay(t)
    ensures !HasData(t) && DATA in t ==> FileInTheWay(t)
    ensures Passable(t) || FileInTheWay(t)
  {
  }

  lemma TopMade(t: Tree)
    requires NoFileAbove(t, [])
    ensures TopIsDir(WithDirs(t, []))
    ensures PENDING in WithDirs(t, []) <==> PENDING in t
    ensures PENDING in t ==> WithDirs(t, [])[PENDING] == t[PENDING]
  {
    var nothing: Path := [];
    assert nothing[..0] == nothing;
  }

  lemma NoFileAtData(t: Tree, before: Tree, template: Tree)
    requires SlotStep(t, before, template) && TopIsDir(template) && !(DATA in before && before[DATA].File?)
    ensures !(DATA in t && t[DATA].File?)
  {
    hide Sub;
    ThereNow(before, DATA);
    ThereNow(t, DATA);
    assert [] in Emptied(template) && Emptied(template)[[]].Dir?;
  }

  /** Steps of steps are steps. */
  lemma SlotStepTwice(t: Tree, mid: Tree, before: Tree, template: Tree)
    requires SlotStep(t, mid, template) && SlotStep(mid, before, template) && TopIsDir(template)
    ensures SlotStep(t, before, template)
    ensures HasData(before) && HasData(mid) ==> Sub(mid, DATA) == Sub(before, DATA)
    ensures HasData(mid) && !HasData(before) ==> Sub(mid, DATA) == Emptied(template)
  {
    hide Sub;
    ThereNow(mid, DATA);
    ThereNow(before, DATA);
    assert [] in Emptied(template);
  }

  /** One attempt stopped by a crash after so many steps. */
  method StoppedInitialise(left: Tree, ghost slot: Tree, template: Tree, steps: nat)
    returns (after: Tree, ghost log: seq<Tree>)
    requires Rooted(left) && !FileInTheWay(left) && SlotStep(left, slot, template)
    requires Rooted(template) && TopIsDir(template)
    ensures Rooted(after) && !FileInTheWay(after) && SlotStep(after, slot, template)
    ensures StoppedAt(log, steps, left, after) && AllSlotSteps(log, 1, left, template)
  {
    hide Sub, SlotStep, AllSlotSteps, Emptied, FileInTheWay, Rooted;
    var disk := new Disk(left);
    var ok := Initialise(disk, template);
    var reached := if steps < |disk.log| then steps else |disk.log| - 1;
    OneOfItsSteps(disk.log, reached, left, template);
    SlotStepTwice(disk.log[reached], left, slot, template);
    after, log := disk.log[reached], disk.log;
  }

  /** Any number of attempts, each stopped by a crash after as many steps as it likes, then
      one that is let through: unless an outside call of that last one fails, the slot has
      its data, those it had before or a full template with its banks emptied. */
  method InitialiseAfterCrashes(slot: Tree, template: Tree, crashes: seq<nat>)
    returns (ok: bool, disk: Disk, ghost trees: seq<Tree>, ghost logs: seq<seq<Tree>>)
    requires Rooted(slot) && !FileInTheWay(slot) && Rooted(template) && TopIsDir(template)
    ensures |logs| == |crashes| && |trees| == |crashes| + 1 && trees[0] == slot
    ensures forall k :: 0 <= k < |crashes| ==>
              && StoppedAt(logs[k], crashes[k], trees[k], trees[k + 1])
              && AllSlotSteps(logs[k], 1, trees[k], template)
    ensures fresh(disk) && disk.Valid() && disk.log != [] && disk.log[0] == trees[|crashes|]
    ensures AllSlotSteps(disk.log, 1, trees[|crashes|], template)
    ensures disk.faults == 0 ==> ok
    ensures ok ==> Sub(disk.root, DATA) == if HasData(slot) then Sub(slot, DATA) else Emptied(template)
    ensures SlotStep(disk.root, slot, template)
  {
    hide Sub, SlotStep, AllSlotSteps, Emptied, FileInTheWay, Rooted;
    var left := slot;
    trees, logs := [slot], [];
    NothingHappened([], slot, template);
    for k := 0 to |crashes|
      invariant Rooted(left) && !FileInTheWay(left) && SlotStep(left, slot, template)
      invariant |logs| == k && |trees| == k + 1 && trees[0] == slot && trees[k] == left
      invariant forall i :: 0 <= i < k ==>
                  && StoppedAt(logs[i], crashes[i], trees[i], trees[i + 1])
                  && AllSlotSteps(logs[i], 1, trees[i], template)
    {
      ghost var log: seq<Tree>;
      left, log := StoppedInitialise(left, slot, template, crashes[k]);
      trees, logs := trees + [left], logs + [log];
    }
    disk := new Disk(left);
    ok := Initialise(disk, template);
    NothingHappened([], left, template);
    SlotStepTwice(disk.root, left, slot, template);
    if HasData(slot) {
      DataIsKept(left, slot, template);
    } else if HasData(left) {
      SlotStepTwice(left, left, slot, template);
    }
  }

  lemma OneOfItsSteps(log: seq<Tree>, k: nat, before: Tree, template: Tree)
    requires k < |log| && log[0] == before && AllSlotSteps(log, 1, before, template)
    ensures SlotStep(log[k], before, template) && (!FileInTheWay(before) ==> !FileInTheWay(log[k]))
  {
    hide SlotStep, FileInTheWay;
    NothingHappened([], before, template);
  }

  lemma DataIsKept(t: Tree, before: Tree, template: Tree)
    requires SlotStep(t, before, template) && HasData(before)
    ensures HasData(t) && Sub(t, DATA) == Sub(before, DATA)
  {
    ThereNow(before, DATA);
    ThereNow(t, DATA);
  }

  lemma NothingHappened(log: seq<Tree>, t: Tree, template: Tree)
    ensures SlotStep(t, t, template) && AllSlotSteps(log, |log|, t, template)
  {
  }

  lemma DirsAreSlotSteps(log: seq<Tree>, from: nat, after: Tree, before: Tree, template: Tree)
    requires forall i :: from <= i < |log| ==> SomeDirs(log[i], before, [])
    requires SomeDirs(after, before, [])
    ensures AllSlotSteps(log, from, before, template)
    ensures SlotStep(after, before, template) && Sub(after, DATA) == Sub(before, DATA)
  {
    forall t | SomeDirs(t, before, [])
      ensures SlotStep(t, before, template) && Sub(t, DATA) == Sub(before, DATA)
      ensures !FileInTheWay(before) ==> !FileInTheWay(t)
    {
      forall r: Path | r != []
        ensures Sub(t, r) == Sub(before, r)
      {
        DirsElsewhere(t, before, [], r);
      }
    }
  }

  lemma PendingIsASlotStep(log: seq<Tree>, from: nat, after: Tree, base: Tree, before: Tree, template: Tree)
    requires Confined(log, from, base, PENDING) && SameOutside(after, base, PENDING) && AllPassable(log, from)
    requires SlotStep(base, before, template) && Sub(base, DATA) == Sub(before, DATA) && TopIsDir(template)
    ensures AllSlotSteps(log, from, before, template)
    ensures SlotStep(after, before, template) && Sub(after, DATA) == Sub(before, DATA)
  {
    hide Sub, Cut, Emptied, Passable;
    TopLevelApart();
    forall t | SameOutside(t, base, PENDING)
      ensures SlotStep(t, before, template) && Sub(t, DATA) == Sub(before, DATA)
      ensures !FileInTheWay(before) && Passable(t) ==> !FileInTheWay(t)
    {
      forall r | Apart(PENDING, r)
        ensures Sub(t, r) == Sub(base, r)
      {
        SameOutsideElsewhere(t, base, PENDING, r);
      }
      if !FileInTheWay(before) {
        NoFileAtData(t, before, template);
      }
    }
  }

  lemma SlotStepsChain(log: seq<Tree>, early: seq<Tree>, from: nat, before: Tree, template: Tree)
    requires from <= |early| <= |log| && log[..|early|] == early
    requires AllSlotSteps(early, from, before, template) && AllSlotSteps(log, |early|, before, template)
    ensures AllSlotSteps(log, from, before, template)
  {
    hide SlotStep, FileInTheWay;
    forall i | from <= i < |early|
      ensures log[i] == early[i]
    {
      assert log[i] == log[..|early|][i];
    }
  }

  lemma OneMoreSlotStep(early: seq<Tree>, from: nat, t: Tree, before: Tree, template: Tree)
    requires AllSlotSteps(early, from, before, template)
    requires SlotStep(t, before, template) && (!FileInTheWay(before) ==> !FileInTheWay(t))
    ensures AllSlotSteps(early + [t], from, before, template)
  {
    hide SlotStep, FileInTheWay;
  }

  lemma ReadyToRename(t: Tree, before: Tree, template: Tree)
    requires Sub(t, DATA) == Sub(before, DATA)
    requires Sub(t, PENDING) == Emptied(template) && TopIsDir(template) && TopIsDir(t)
    ensures !HasData(before) ==> (CanRename(t, PENDING, DATA) <==> DATA !in before)
  {
    hide Sub;
    TopLevelApart();
    ThereNow(t, PENDING);
    ThereNow(t, DATA);
    ThereNow(before, DATA);
    assert [] in Emptied(template) && Emptied(template)[[]].Dir?;
    assert DATA[..0] == [];
  }

  lemma RenameIsASlotStep(t: Tree, before: Tree, template: Tree)
    requires SlotStep(t, before, template) && Sub(t, PENDING) == Emptied(template)
    requires DATA !in before && TopIsDir(t) && TopIsDir(template)
    ensures var after := Renamed(t, PENDING, DATA);
            && SlotStep(after, before, template) && Sub(after, DATA) == Emptied(template)
            && (!FileInTheWay(before) ==> !FileInTheWay(after))
  {
    hide Sub, Cut, Graft, Emptied, Renamed;
    var after := Renamed(t, PENDING, DATA);
    TopLevelApart();
    RenamedPlaces(t, PENDING, DATA);
    forall r | Apart(r, DATA) && Apart(r, PENDING)
      ensures Sub(after, r) == Sub(before, r)
    {
      RenamedElsewhere(t, PENDING, DATA, r);
    }
    NoFileAtData(after, before, template);
    ThereNow(after, PENDING);
    TopRenamed(t, PENDING, DATA);
  }
}
