/** The two renames that put a bank of a save in the place of another
    (docker/switch-saves.py, import_save). */
module BankSwap {
  import opened FileTree
  import opened TreeFrames
  import opened SaveSlots
  import opened PendingSave

  const MANIFEST: Path := ["import.json"]

  function Bank(container: string, bank: string): Path {
    ["save", container, bank]
  }

  /** The user tree with one bank replaced by the new save. */
  function WithBank(user: Tree, container: string, bank: string, save: Tree): Tree {
    Graft(user, Bank(container, bank), save)
  }

  // ---- putting the banks in place --------------------------------------------

  function Live(container: string, bank: string): Path {
    USER + Bank(container, bank)
  }

  lemma SwapPlaces(container: string, bank: string)
    requires bank == "0" || bank == "1"
    ensures Apart(USER, Fresh(bank)) && Apart(USER, Replaced(bank))
    ensures Apart(Live(container, bank), Fresh(bank)) && Apart(Live(container, bank), Replaced(bank))
    ensures Apart(Fresh(bank), Live(container, bank)) && Apart(Fresh(bank), Replaced(bank))
    ensures Apart(BANK1, Fresh("0")) && Apart(BANK1, Replaced("0")) && Apart(BANK1, Live(container, bank))
  {
    assert USER[0] == Live(container, bank)[0] == "data" && IMPORT[0] == Fresh(bank)[0] == Replaced(bank)[0];
    assert |"data"| == 4 && |IMPORT[0]| == 14;
    assert Fresh(bank)[1] == bank && Replaced(bank)[1] == bank + ".replaced" && Replaced("0")[1][0] == '0';
    assert |bank + ".replaced"| == 10 && BANK1[1][0] == '1' && Fresh("0")[1][0] == '0';
  }

  lemma CutThenGraft(t: Tree, p: Path, s: Tree)
    ensures Graft(Cut(t, p), p, s) == Graft(t, p, s)
  {
  }

  /** Between the two renames of a bank and after them, everything but the user tree
      and the pending place is as before. */
  ghost predicate SwapStep(t: Tree, before: Tree, container: string, bank: string) {
    && (forall r :: Apart(r, USER) && Apart(r, IMPORT) ==> Sub(t, r) == Sub(before, r))
    && (|| Sub(t, USER) == Cut(Sub(before, USER), Bank(container, bank))
        || Sub(t, USER) == WithBank(Sub(before, USER), container, bank, Sub(before, Fresh(bank))))
  }

  lemma ApartFromLive(r: Path, container: string, bank: string)
    requires Apart(r, USER) && Apart(r, IMPORT)
    ensures Apart(r, Live(container, bank)) && Apart(r, Fresh(bank)) && Apart(r, Replaced(bank))
  {
    ApartInside(r, USER, Bank(container, bank));
    ApartInside(r, IMPORT, [bank]);
    ApartInside(r, IMPORT, [bank + ".replaced"]);
  }

  lemma TakenOut(t: Tree, container: string, bank: string)
    requires bank == "0" || bank == "1"
    ensures var after := Renamed(t, Live(container, bank), Replaced(bank));
            && SwapStep(after, t, container, bank)
            && Sub(after, USER) == Cut(Sub(t, USER), Bank(container, bank))
            && Sub(after, Fresh(bank)) == Sub(t, Fresh(bank))
            && (bank == "0" ==> Sub(after, BANK1) == Sub(t, BANK1))
  {
    hide Sub, Cut, Graft, Apart, Bank, Fresh, Replaced, Renamed;
    SwapPlaces(container, bank);
    var live, aside := Live(container, bank), Replaced(bank);
    var after := Renamed(t, live, aside);
    RenamedElsewhere(t, live, aside, Fresh(bank));
    if bank == "0" {
      RenamedElsewhere(t, live, aside, BANK1);
    }
    assert Sub(after, USER) == Cut(Sub(t, USER), Bank(container, bank)) by {
      RenamedIs(t, live, aside);
      SubElsewhere(Cut(t, live), aside, Sub(t, live), USER);
      SubAboveCut(t, USER, Bank(container, bank));
    }
    forall r | Apart(r, USER) && Apart(r, IMPORT)
      ensures Sub(after, r) == Sub(t, r)
    {
      ApartFromLive(r, container, bank);
      RenamedElsewhere(t, live, aside, r);
    }
  }

  lemma RenamedIs(t: Tree, from: Path, to: Path)
    ensures Renamed(t, from, to) == Graft(Cut(t, from), to, Sub(t, from))
  {
  }

  lemma PutIn(t: Tree, before: Tree, container: string, bank: string)
    requires bank == "0" || bank == "1"
    requires SwapStep(t, before, container, bank)
    requires Sub(t, USER) == Cut(Sub(before, USER), Bank(container, bank))
    requires Sub(t, Fresh(bank)) == Sub(before, Fresh(bank))
    requires bank == "0" ==> Sub(t, BANK1) == Sub(before, BANK1)
    ensures var after := Renamed(t, Fresh(bank), Live(container, bank));
            && SwapStep(after, before, container, bank)
            && Sub(after, USER) == WithBank(Sub(before, USER), container, bank, Sub(before, Fresh(bank)))
            && (bank == "0" ==> Sub(after, BANK1) == Sub(before, BANK1))
  {
    hide Sub, Cut, Graft, Apart, Bank, Fresh, Replaced, Renamed;
    SwapPlaces(container, bank);
    var live, newBank := Live(container, bank), Fresh(bank);
    var after := Renamed(t, newBank, live);
    if bank == "0" {
      RenamedElsewhere(t, newBank, live, BANK1);
    }
    assert Sub(after, USER) == WithBank(Sub(before, USER), container, bank, Sub(before, newBank)) by {
      RenamedIs(t, newBank, live);
      SubAboveGraft(Cut(t, newBank), USER, Bank(container, bank), Sub(t, newBank));
      SubElsewhere(t, newBank, map[], USER);
      CutThenGraft(Sub(before, USER), Bank(container, bank), Sub(t, newBank));
    }
    forall r | Apart(r, USER) && Apart(r, IMPORT)
      ensures Sub(after, r) == Sub(before, r)
    {
      ApartFromLive(r, container, bank);
      RenamedElsewhere(t, newBank, live, r);
    }
  }

  /** Everything a bank's two renames need is there. */
  predicate Swappable(t: Tree, container: string, bank: string) {
    && Live(container, bank) in t && USER + ["save", container] in t && t[USER + ["save", container]].Dir?
    && IMPORT in t && t[IMPORT].Dir? && Fresh(bank) in t && Replaced(bank) !in t
  }

  lemma CanSwapBank(t: Tree, container: string, bank: string)
    requires (bank == "0" || bank == "1") && Swappable(t, container, bank)
    ensures CanRename(t, Live(container, bank), Replaced(bank))
    ensures CanRename(Renamed(t, Live(container, bank), Replaced(bank)), Fresh(bank), Live(container, bank))
  {
    SwapPlaces(container, bank);
    var live, aside, parent := Live(container, bank), Replaced(bank), USER + ["save", container];
    assert live[..|live| - 1] == parent && aside[..|aside| - 1] == IMPORT;
    RenamedKeys(t, live, aside);
    assert !(live <= parent) && !(aside <= parent) && parent[0] == USER[0] && IMPORT[0] == aside[0];
  }

  /** A rename changes nothing at a path that is inside neither place. */
  lemma RenamedKeys(t: Tree, from: Path, to: Path)
    requires Apart(from, to)
    ensures forall k :: !(from <= k) && !(to <= k) ==> (k in Renamed(t, from, to) <==> k in t)
    ensures forall k :: !(from <= k) && !(to <= k) && k in t ==> Renamed(t, from, to)[k] == t[k]
    ensures from !in Renamed(t, from, to)
  {
  }

  /** Nothing the second bank needs is inside a place. */
  predicate Misses(place: Path, container: string) {
    && !(place <= Live(container, "1")) && !(place <= USER + ["save", container]) && !(place <= IMPORT)
    && !(place <= Fresh("1")) && !(place <= Replaced("1"))
  }

  lemma SwappableStays(t: Tree, from: Path, to: Path, container: string)
    requires Apart(from, to) && Misses(from, container) && Misses(to, container)
    requires Swappable(t, container, "1")
    ensures Swappable(Renamed(t, from, to), container, "1")
  {
    hide Live, Fresh, Replaced, Renamed, Apart;
    RenamedKeys(t, from, to);
  }

  lemma FirstBankMisses(container: string)
    ensures Misses(Live(container, "0"), container) && Misses(Replaced("0"), container) && Misses(Fresh("0"), container)
  {
    var live, other := Live(container, "0"), Live(container, "1");
    assert live[0] == USER[0] && |USER[0]| == 4 && |IMPORT[0]| == 14 && |live| == |other| == 6;
    assert live[5] == "0" && other[5] == "1" && "0"[0] == '0' && "1"[0] == '1' && other[0] == USER[0];
    assert Fresh("1")[0] == Replaced("1")[0] == Fresh("0")[0] == Replaced("0")[0] == IMPORT[0];
    assert Fresh("1")[1] == "1" && Replaced("1")[1][0] == '1' && Fresh("0")[1] == "0" && Replaced("0")[1][0] == '0';
    assert (USER + ["save", container])[0] == USER[0];
  }

  /** Putting the first bank in place neither makes nor removes the second. */
  lemma OtherBankIsThere(t: Tree, container: string)
    ensures var mid := Renamed(t, Live(container, "0"), Replaced("0"));
            var after := Renamed(mid, Fresh("0"), Live(container, "0"));
            Live(container, "1") in after <==> Live(container, "1") in t
  {
    hide Live, Fresh, Replaced, Renamed, Apart;
    SwapPlaces(container, "0");
    FirstBankMisses(container);
    RenamedKeys(t, Live(container, "0"), Replaced("0"));
    RenamedKeys(Renamed(t, Live(container, "0"), Replaced("0")), Fresh("0"), Live(container, "0"));
  }

  /** Putting the first bank in place leaves what the second needs. */
  lemma OtherBankStays(t: Tree, container: string)
    requires Swappable(t, container, "1")
    ensures var mid := Renamed(t, Live(container, "0"), Replaced("0"));
            Swappable(Renamed(mid, Fresh("0"), Live(container, "0")), container, "1")
  {
    hide Live, Fresh, Replaced, Renamed, Apart, Swappable, Misses;
    SwapPlaces(container, "0");
    FirstBankMisses(container);
    SwappableStays(t, Live(container, "0"), Replaced("0"), container);
    SwappableStays(Renamed(t, Live(container, "0"), Replaced("0")), Fresh("0"), Live(container, "0"), container);
  }

  /** The pending place is a directory, and the record of the import can be written. */
  predicate FolderReady(t: Tree) {
    IMPORT in t && t[IMPORT].Dir? && !(MANIFEST in t && t[MANIFEST].Dir?)
  }

  lemma FolderStays(t: Tree, container: string, bank: string)
    requires (bank == "0" || bank == "1") && FolderReady(t)
    ensures var mid := Renamed(t, Live(container, bank), Replaced(bank));
            FolderReady(Renamed(mid, Fresh(bank), Live(container, bank)))
  {
    SwapPlaces(container, bank);
    var live, aside, newBank := Live(container, bank), Replaced(bank), Fresh(bank);
    assert |live| == 6 && |aside| == |newBank| == 2;
    assert !(live <= IMPORT) && !(aside <= IMPORT) && !(newBank <= IMPORT);
    assert !(live <= MANIFEST) && !(aside <= MANIFEST) && !(newBank <= MANIFEST);
    hide Renamed, Live, Replaced, Fresh;
    RenamedKeys(t, live, aside);
    RenamedKeys(Renamed(t, live, aside), newBank, live);
  }

  lemma RenamedFrom(t: Tree, from: Path, to: Path)
    requires CanRename(t, from, to)
    ensures from in t
  {
  }

  /** One bank: the old one aside, the new one in its place. */
  method SwapBank(disk: Disk, container: string, bank: string) returns (ok: bool)
    requires disk.Valid()
    requires bank == "0" || bank == "1"
    modifies disk
    ensures disk.Valid() && disk.Grown()
    ensures forall i :: old(|disk.log|) <= i < |disk.log| ==> SwapStep(disk.log[i], old(disk.root), container, bank)
    ensures disk.root == old(disk.root) || SwapStep(disk.root, old(disk.root), container, bank)
    ensures ok ==>
              && SwapStep(disk.root, old(disk.root), container, bank)
              && Sub(disk.root, USER)
                 == WithBank(Sub(old(disk.root), USER), container, bank, Sub(old(disk.root), Fresh(bank)))
    ensures ok && bank == "0" ==> Sub(disk.root, BANK1) == Sub(old(disk.root), BANK1)
    ensures ok && bank == "0" && Swappable(old(disk.root), container, "1") ==> Swappable(disk.root, container, "1")
    ensures ok ==> Live(container, bank) in old(disk.root)
    ensures ok && bank == "0" ==> (Live(container, "1") in disk.root <==> Live(container, "1") in old(disk.root))
    ensures ok && FolderReady(old(disk.root)) ==> FolderReady(disk.root)
    ensures !ok ==> disk.faults > old(disk.faults) || !Swappable(old(disk.root), container, bank)
  {
    hide Sub, Cut, Graft, Apart, Bank, Fresh, Replaced, Renamed, Live, SwapStep, CanRename, WithBank, Swappable,
      FolderReady;
    ghost var before, log0 := disk.root, disk.log;
    if FolderReady(before) {
      FolderStays(before, container, bank);
    }
    if Swappable(before, container, bank) {
      CanSwapBank(before, container, bank);
    }
    if Swappable(before, container, "1") {
      OtherBankStays(before, container);
    }
    OtherBankIsThere(before, container);
    ok := disk.Rename(Live(container, bank), Replaced(bank));
    if !ok {
      return;
    }
    RenamedFrom(before, Live(container, bank), Replaced(bank));
    TakenOut(before, container, bank);
    PutIn(disk.root, before, container, bank);
    ok := disk.Rename(Fresh(bank), Live(container, bank));
  }
}
