/** The pending place of an import: both banks of the new save written there, file by
    file, before anything else changes (docker/switch-saves.py, import_save). */
module PendingSave {
  import opened Common
  import opened FileTree
  import opened TreeFrames

  const IMPORT: Path := ["import.pending"]
  const BANK0: Path := ["import.pending", "0"]
  const BANK1: Path := ["import.pending", "1"]

  /** The two names of a bank: as written, and as the old one is set aside. */
  function Fresh(bank: string): Path {
    IMPORT + [bank]
  }

  function Replaced(bank: string): Path {
    IMPORT + [bank + ".replaced"]
  }

  // ---- writing the new banks --------------------------------------------------

  /** One more file beside those already written. */
  lemma OneMoreFile(done: map<Path, seq<Byte>>, inner: Path, payload: seq<Byte>)
    requires inner != [] && inner !in done
    requires forall n :: 0 <= n < |inner| ==> inner[..n] !in done
    requires inner in FilesTree(done) ==> FilesTree(done)[inner].File?
    ensures WithDirs(FilesTree(done), inner[..|inner| - 1])[inner := File(payload)]
            == FilesTree(done[inner := payload])
  {
    var more := done[inner := payload];
    var dirs := WithDirs(FilesTree(done), inner[..|inner| - 1]);
    var after, expected := dirs[inner := File(payload)], FilesTree(more);
    forall k: Path
      ensures k in after <==> k in expected
      ensures k in after && k in expected ==> after[k] == expected[k]
    {
      PrefixesOneByOne(k, inner, |inner|);
      assert inner[..|inner|] == inner;
      if k in expected && k !in Above(done.Keys) {
        assert k <= inner;
      }
      if k in Above(done.Keys) {
        var f :| f in done.Keys && k <= f;
        assert f in more.Keys;
      }
      if k <= inner {
        assert inner in more.Keys && inner[..|k|] == k;
      }
    }
  }

  /** A file goes through only where no other file of the save is in the way. */
  lemma NoFileOnTheWay(before: Tree, place: Path, done: map<Path, seq<Byte>>, inner: Path)
    requires inner != [] && Sub(before, place) == FilesTree(done)
    requires NoFileAbove(before, place + inner[..|inner| - 1])
    requires place + inner in before ==> before[place + inner].File?
    ensures forall n :: 0 <= n < |inner| ==> inner[..n] !in done
    ensures inner in FilesTree(done) ==> FilesTree(done)[inner].File?
  {
    var parent := place + inner[..|inner| - 1];
    forall n | 0 <= n < |inner|
      ensures inner[..n] !in done
    {
      assert parent[..|place| + n] == place + inner[..n];
      var q := inner[..n];
      assert q in done.Keys ==> q in Above(done.Keys);
      assert q in Sub(before, place) ==> place + q in before;
    }
  }

  /** One file, with the directories above it. */
  method WriteOne(disk: Disk, place: Path, done: map<Path, seq<Byte>>, inner: Path, payload: seq<Byte>)
    returns (ok: bool)
    requires disk.Valid()
    requires inner != [] && inner !in done && Sub(disk.root, place) == FilesTree(done)
    modifies disk
    ensures disk.Valid() && disk.Grown()
    ensures AllBeside(disk.log, old(|disk.log|), old(disk.root), place)
    ensures Beside(disk.root, old(disk.root), place)
    ensures ok ==> Sub(disk.root, place) == FilesTree(done[inner := payload]) && DirsTo(disk.root, place)
    ensures !ok ==> disk.faults > old(disk.faults) || !NoFileAbove(old(disk.root), place) || !NotInTheWay(done, inner)
  {
    hide Sub, Apart, FilesTree, WithDirs, NoFileAbove, SomeDirs, Beside, AllBeside, DirsTo, NotInTheWay;
    ghost var before, from := disk.root, |disk.log|;
    var above := inner[..|inner| - 1];
    NothingStops(before, place, done, inner);
    ok := disk.MakeDirs(place + above);
    DirsAreBeside(disk.log, from, before, place, above);
    DirIsBeside(disk.root, before, place, above);
    ghost var mid, early := disk.root, disk.log;
    if !ok {
      return;
    }
    ok := PutFile(disk, place, inner, payload);
    BesideChain(disk.log, early, from, mid, before, place);
    BesideTwice(disk.root, mid, before, place);
    if ok {
      FileAdded(before, place, done, inner, payload);
      DirsAreThere(before, place, inner, payload);
    }
  }

  /** Every directory down to a place is there. */
  ghost predicate DirsTo(t: Tree, place: Path) {
    forall n :: 0 <= n <= |place| ==> place[..n] in t && t[place[..n]].Dir?
  }

  /** No file of the save is above another. */
  ghost predicate NotInTheWay(done: map<Path, seq<Byte>>, inner: Path) {
    (forall n :: 0 <= n < |inner| ==> inner[..n] !in done) && inner !in Above(done.Keys)
  }

  /** Then only an outside failure stops a file from being written. */
  lemma NothingStops(before: Tree, place: Path, done: map<Path, seq<Byte>>, inner: Path)
    requires inner != [] && Sub(before, place) == FilesTree(done)
    ensures NoFileAbove(before, place) && NotInTheWay(done, inner) ==>
              var mid := WithDirs(before, place + inner[..|inner| - 1]);
              NoFileAbove(before, place + inner[..|inner| - 1]) && CanWrite(mid, place + inner)
  {
    hide WithDirs, HasParent;
    var above := inner[..|inner| - 1];
    var parent := place + above;
    if NoFileAbove(before, place) && NotInTheWay(done, inner) {
      forall n | 0 <= n <= |parent| && parent[..n] in before
        ensures before[parent[..n]].Dir?
      {
        if n <= |place| {
          assert parent[..n] == place[..n];
        } else {
          var k := n - |place|;
          assert parent[..n] == place + inner[..k];
          assert inner[..k] in Sub(before, place);
        }
      }
      assert inner !in Sub(before, place);
      assert |place + inner| > |parent|;
      ParentMade(before, place, inner);
    }
  }

  lemma ParentMade(before: Tree, place: Path, inner: Path)
    requires inner != [] && NoFileAbove(before, place + inner[..|inner| - 1])
    ensures HasParent(WithDirs(before, place + inner[..|inner| - 1]), place + inner)
  {
    var parent := place + inner[..|inner| - 1];
    assert (place + inner)[..|parent|] == parent == parent[..|parent|];
  }

  lemma DirsAreThere(before: Tree, place: Path, inner: Path, payload: seq<Byte>)
    requires inner != [] && NoFileAbove(before, place + inner[..|inner| - 1])
    ensures DirsTo(WithDirs(before, place + inner[..|inner| - 1])[place + inner := File(payload)], place)
  {
    hide WithDirs;
    var parent := place + inner[..|inner| - 1];
    forall n | 0 <= n <= |place|
      ensures place[..n] <= parent && place[..n] != place + inner
      ensures place[..n] in before ==> before[place[..n]].Dir?
    {
      assert parent[..n] == place[..n] && |place + inner| > n;
    }
  }

  lemma FileAdded(before: Tree, place: Path, done: map<Path, seq<Byte>>, inner: Path, payload: seq<Byte>)
    requires inner != [] && inner !in done && Sub(before, place) == FilesTree(done)
    requires NoFileAbove(before, place + inner[..|inner| - 1])
    requires var mid := WithDirs(before, place + inner[..|inner| - 1]);
             place + inner in mid ==> mid[place + inner].File?
    ensures Sub(WithDirs(before, place + inner[..|inner| - 1]), place)[inner := File(payload)]
            == FilesTree(done[inner := payload])
  {
    hide Sub, FilesTree, WithDirs, NoFileAbove;
    SubWithDirs(before, place, inner[..|inner| - 1]);
    WithDirsKeeps(before, place + inner[..|inner| - 1], place + inner);
    NoFileOnTheWay(before, place, done, inner);
    OneMoreFile(done, inner, payload);
  }

  method PutFile(disk: Disk, place: Path, inner: Path, payload: seq<Byte>) returns (ok: bool)
    requires disk.Valid()
    modifies disk
    ensures disk.Valid() && disk.Grown()
    ensures AllBeside(disk.log, old(|disk.log|), old(disk.root), place)
    ensures Beside(disk.root, old(disk.root), place)
    ensures ok ==>
              && (place + inner in old(disk.root) ==> old(disk.root)[place + inner].File?)
              && Sub(disk.root, place) == Sub(old(disk.root), place)[inner := File(payload)]
              && disk.root == old(disk.root)[place + inner := File(payload)]
    ensures ok <==> disk.faults == old(disk.faults)
                    && CanWrite(old(disk.root), place + inner)
  {
    hide Sub, Apart, SameOutside, Confined, Beside, AllBeside;
    ghost var before, from := disk.root, |disk.log|;
    ok := disk.WriteFile(place + inner, payload);
    ConfinedIsBeside(disk.log, from, before, place, inner);
    InsideIsBeside(disk.root, before, place, inner);
    SubPut(before, place, inner, File(payload));
  }

  function Except(data: map<Path, seq<Byte>>, left: set<Path>): map<Path, seq<Byte>> {
    map k | k in data && k !in left :: data[k]
  }

  lemma ExceptOneLess(data: map<Path, seq<Byte>>, left: set<Path>, inner: Path)
    requires inner in left && left <= data.Keys
    ensures inner !in Except(data, left)
    ensures Except(data, left)[inner := data[inner]] == Except(data, left - {inner})
  {
  }

  /** No file is at a place another one needs a directory. */
  ghost predicate PrefixFree(data: map<Path, seq<Byte>>) {
    forall a, b :: a in data && b in data && a <= b ==> a == b
  }

  lemma NoneInTheWay(data: map<Path, seq<Byte>>, left: set<Path>, inner: Path)
    requires inner in left && left <= data.Keys
    ensures PrefixFree(data) ==> NotInTheWay(Except(data, left), inner)
  {
    var done := Except(data, left);
    if PrefixFree(data) {
      forall n | 0 <= n < |inner|
        ensures inner[..n] !in done
      {
        assert inner[..n] <= inner && |inner[..n]| < |inner|;
      }
    }
  }

  lemma DirsHaveNoFile(t: Tree, place: Path)
    ensures DirsTo(t, place) ==> NoFileAbove(t, place)
  {
  }

  lemma ExceptEnds(data: map<Path, seq<Byte>>)
    ensures Except(data, data.Keys) == map[] && Except(data, {}) == data
  {
  }

  /** A whole bank of the save, in whatever order its files come. */
  method WriteBank(disk: Disk, place: Path, data: map<Path, seq<Byte>>) returns (ok: bool)
    requires disk.Valid()
    requires [] !in data && Sub(disk.root, place) == map[]
    modifies disk
    ensures disk.Valid() && disk.Grown()
    ensures AllBeside(disk.log, old(|disk.log|), old(disk.root), place)
    ensures Beside(disk.root, old(disk.root), place)
    ensures ok ==> Sub(disk.root, place) == FilesTree(data) && (data != map[] ==> DirsTo(disk.root, place))
    ensures !ok ==> disk.faults > old(disk.faults) || !NoFileAbove(old(disk.root), place) || !PrefixFree(data)
  {
    hide Sub, AllBeside, Beside, FilesTree, Except, DirsTo, NoFileAbove, PrefixFree, NotInTheWay;
    ghost var before, from := disk.root, |disk.log|;
    NothingWritten(disk.log, before, place);
    ExceptEnds(data);
    var left, done := data.Keys, map[];
    while left != {}
      invariant disk.Valid() && disk.Grown()
      invariant left <= data.Keys && done == Except(data, left)
      invariant AllBeside(disk.log, from, before, place) && Beside(disk.root, before, place)
      invariant Sub(disk.root, place) == FilesTree(done)
      invariant left == data.Keys ==> disk.root == before
      invariant left != data.Keys ==> DirsTo(disk.root, place)
      decreases |left|
    {
      var inner :| inner in left;
      ExceptOneLess(data, left, inner);
      NoneInTheWay(data, left, inner);
      DirsHaveNoFile(disk.root, place);
      ghost var mid, early := disk.root, disk.log;
      ok := WriteOne(disk, place, done, inner, data[inner]);
      BesideChain(disk.log, early, from, mid, before, place);
      BesideTwice(disk.root, mid, before, place);
      if !ok {
        return;
      }
      done, left := done[inner := data[inner]], left - {inner};
    }
    ok := true;
  }

  lemma NothingWritten(log: seq<Tree>, t: Tree, place: Path)
    ensures FilesTree(map[]) == map[]
    ensures AllBeside(log, |log|, t, place) && Beside(t, t, place)
  {
  }

  /** Both banks of the new save, complete, at the pending place. */
  method WriteBanks(disk: Disk, data: map<Path, seq<Byte>>) returns (ok: bool)
    requires disk.Valid()
    requires [] !in data && data != map[]
    modifies disk
    ensures disk.Valid() && disk.Grown()
    ensures AllBeside(disk.log, old(|disk.log|), old(disk.root), IMPORT)
    ensures Beside(disk.root, old(disk.root), IMPORT)
    ensures ok ==> Sub(disk.root, BANK0) == FilesTree(data) && Sub(disk.root, BANK1) == FilesTree(data)
    ensures ok ==> Staged(disk.root)
    ensures !ok ==> disk.faults > old(disk.faults) || !Clear(old(disk.root)) || !PrefixFree(data)
  {
    hide Sub, AllBeside, Beside, FilesTree, NoFileAbove, PrefixFree, Clear, Staged;
    ghost var before, from := disk.root, |disk.log|;
    ok := EmptyPending(disk);
    if !ok {
      return;
    }
    ghost var t1, log1 := disk.root, disk.log;
    NoFileThere(before, t1);
    ok := WriteBoth(disk, data);
    BesideChain(disk.log, log1, from, t1, before, IMPORT);
    BesideTwice(disk.root, t1, before, IMPORT);
  }

  /** One bank after the other, in an empty pending place. */
  method WriteBoth(disk: Disk, data: map<Path, seq<Byte>>) returns (ok: bool)
    requires disk.Valid()
    requires [] !in data && data != map[]
    requires Sub(disk.root, IMPORT) == map[] && Sub(disk.root, BANK0) == map[] && Sub(disk.root, BANK1) == map[]
    modifies disk
    ensures disk.Valid() && disk.Grown()
    ensures AllBeside(disk.log, old(|disk.log|), old(disk.root), IMPORT)
    ensures Beside(disk.root, old(disk.root), IMPORT)
    ensures ok ==> Sub(disk.root, BANK0) == FilesTree(data) && Sub(disk.root, BANK1) == FilesTree(data)
    ensures ok ==> Staged(disk.root)
    ensures !ok ==> disk.faults > old(disk.faults) || !NoFileAbove(old(disk.root), BANK0) || !PrefixFree(data)
  {
    hide Sub, AllBeside, Beside, FilesTree, NoFileAbove, DirsTo, PrefixFree, Staged;
    ghost var t1, log1 := disk.root, disk.log;
    ok := WriteBank(disk, BANK0, data);
    ghost var t2, log2 := disk.root, disk.log;
    BankIsBeside(log2, |log1|, t2, t1, BANK0);
    if !ok {
      return;
    }
    BanksApart(t1, t2);
    SecondBankFits(t2);
    ok := WriteBank(disk, BANK1, data);
    BankIsBeside(disk.log, |log2|, disk.root, t2, BANK1);
    BesideChain(disk.log, log2, |log1|, t2, t1, IMPORT);
    BesideTwice(disk.root, t2, t1, IMPORT);
    BanksApart(t2, disk.root);
    if ok {
      BanksAreStaged(t1, t2, disk.root, data);
    }
  }

  lemma BanksAreStaged(t1: Tree, t2: Tree, t3: Tree, data: map<Path, seq<Byte>>)
    requires data != map[] && Sub(t1, IMPORT) == map[]
    requires Beside(t2, t1, BANK0) && Beside(t3, t2, BANK1)
    requires DirsTo(t3, BANK1) && Sub(t3, BANK0) == FilesTree(data)
    ensures Staged(t3)
  {
    hide Sub;
    assert BANK1[..1] == IMPORT && BANK1[..2] == BANK1;
    var some :| some in data.Keys;
    assert [] in Above(data.Keys);
    ThereNow(t3, BANK0);
    forall bank | bank == "0" || bank == "1"
      ensures Replaced(bank) !in t3
    {
      EmptyBelow(t1, bank + ".replaced");
      ReplacedIsApart(bank);
      ThereNow(t3, Replaced(bank));
    }
  }

  lemma ReplacedIsApart(bank: string)
    requires bank == "0" || bank == "1"
    ensures Apart(Replaced(bank), BANK0) && Apart(Replaced(bank), BANK1)
    ensures Replaced(bank) == IMPORT + [bank + ".replaced"]
  {
    assert |Replaced(bank)[1]| == 10 && |BANK0[1]| == |BANK1[1]| == 1;
  }

  /** Both banks are in the pending place and nothing is where the old ones will go. */
  predicate Staged(t: Tree) {
    IMPORT in t && t[IMPORT].Dir? && BANK0 in t && BANK1 in t
    && Replaced("0") !in t && Replaced("1") !in t
  }

  lemma NoFileThere(before: Tree, t: Tree)
    requires [] in t ==> [] in before && t[[]] == before[[]]
    requires Sub(t, IMPORT) == map[]
    ensures Clear(before) ==> NoFileAbove(t, BANK0)
  {
    forall n | 0 < n <= |BANK0|
      ensures BANK0[..n] !in t
    {
      assert BANK0[..n] == IMPORT + BANK0[1..n];
      assert BANK0[1..n] !in Sub(t, IMPORT);
    }
    assert BANK0[..0] == [];
  }

  lemma SecondBankFits(t: Tree)
    requires DirsTo(t, BANK0) && Sub(t, BANK1) == map[]
    ensures NoFileAbove(t, BANK1)
  {
    assert BANK1 + [] == BANK1;
    assert BANK1 in t ==> [] in Sub(t, BANK1);
    forall n | 0 <= n <= |BANK1| && BANK1[..n] in t
      ensures t[BANK1[..n]].Dir?
    {
      if n < 2 {
        assert BANK1[..n] == BANK0[..n];
      }
    }
  }

  lemma BanksApart(before: Tree, after: Tree)
    ensures Beside(after, before, BANK0) ==> Sub(after, BANK1) == Sub(before, BANK1)
    ensures Beside(after, before, BANK1) ==> Sub(after, BANK0) == Sub(before, BANK0)
  {
    hide Sub;
    assert BANK0[1] == "0" && BANK1[1] == "1" && "0"[0] == '0' && "1"[0] == '1';
  }

  lemma BankIsBeside(log: seq<Tree>, from: nat, after: Tree, before: Tree, bank: Path)
    requires bank == BANK0 || bank == BANK1
    requires AllBeside(log, from, before, bank) && Beside(after, before, bank)
    ensures AllBeside(log, from, before, IMPORT) && Beside(after, before, IMPORT)
  {
    hide Beside;
    assert bank == IMPORT + bank[1..];
    BesideWider(after, before, IMPORT, bank[1..]);
    forall i | from <= i < |log|
      ensures Beside(log[i], before, IMPORT)
    {
      BesideWider(log[i], before, IMPORT, bank[1..]);
    }
  }

  /** No file stands where the pending place goes. */
  predicate Clear(t: Tree) {
    ([] in t ==> t[[]].Dir?) && (IMPORT in t ==> t[IMPORT].Dir?)
  }

  /** Nothing is left of an import that stopped half way. */
  method EmptyPending(disk: Disk) returns (ok: bool)
    requires disk.Valid()
    modifies disk
    ensures disk.Valid() && disk.Grown()
    ensures AllBeside(disk.log, old(|disk.log|), old(disk.root), IMPORT)
    ensures Beside(disk.root, old(disk.root), IMPORT)
    ensures ok ==> Sub(disk.root, IMPORT) == map[] && Sub(disk.root, BANK0) == map[] && Sub(disk.root, BANK1) == map[]
    ensures ok ==> ([] in disk.root ==> [] in old(disk.root) && disk.root[[]] == old(disk.root)[[]])
    ensures !ok ==> disk.faults > old(disk.faults) || !Clear(old(disk.root))
  {
    hide Sub, AllBeside, Beside, Apart, SameOutside, Confined;
    ghost var before, from := disk.root, |disk.log|;
    NothingWritten(disk.log, before, IMPORT);
    RootedSub(before, IMPORT);
    ok := true;
    if IMPORT in disk.root {
      ok := disk.RemoveTree(IMPORT);
      assert IMPORT + [] == IMPORT;
      ConfinedIsBeside(disk.log, from, before, IMPORT, []);
      InsideIsBeside(disk.root, before, IMPORT, []);
      SubOfCut(before, IMPORT);
    }
    assert BANK0 == IMPORT + ["0"] && BANK1 == IMPORT + ["1"];
    EmptyBelow(disk.root, "0");
    EmptyBelow(disk.root, "1");
  }

  lemma EmptyBelow(t: Tree, bank: string)
    ensures Sub(t, IMPORT) == map[] ==> Sub(t, IMPORT + [bank]) == map[]
  {
    forall q: Path
      ensures IMPORT + [bank] + q == IMPORT + ([bank] + q)
    {
    }
    assert forall q :: q in Sub(t, IMPORT + [bank]) ==> [bank] + q in Sub(t, IMPORT);
  }
}
