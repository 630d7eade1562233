/** What the steps of a file operation leave alone: everything that is not at a place,
    inside it or above it. */
module TreeFrames {
  import opened FileTree

  /** Nothing changed but at a place, inside it and above it. */
  ghost predicate Beside(t: Tree, before: Tree, place: Path) {
    forall r :: Apart(r, place) ==> Sub(t, r) == Sub(before, r)
  }

  /** Every state from one on is beside a place. */
  ghost predicate AllBeside(log: seq<Tree>, from: nat, before: Tree, place: Path) {
    forall i :: from <= i < |log| ==> Beside(log[i], before, place)
  }

  lemma ApartInside(r: Path, place: Path, inner: Path)
    requires Apart(r, place)
    ensures Apart(r, place + inner)
  {
    if |place| <= |r| <= |place + inner| {
      assert (place + inner)[..|r|][..|place|] == place;
    } else if |r| < |place| {
      assert (place + inner)[..|r|] == place[..|r|];
    }
  }

  lemma BesideWider(t: Tree, before: Tree, place: Path, inner: Path)
    requires Beside(t, before, place + inner)
    ensures Beside(t, before, place)
  {
    forall r | Apart(r, place)
      ensures Sub(t, r) == Sub(before, r)
    {
      ApartInside(r, place, inner);
    }
  }

  lemma BesideTwice(t: Tree, mid: Tree, before: Tree, place: Path)
    requires Beside(t, mid, place) && Beside(mid, before, place)
    ensures Beside(t, before, place)
  {
  }

  lemma BesideChain(log: seq<Tree>, early: seq<Tree>, from: nat, mid: Tree, before: Tree, place: Path)
    requires from <= |early| <= |log| && log[..|early|] == early
    requires Beside(mid, before, place)
    requires AllBeside(early, from, before, place) && AllBeside(log, |early|, mid, place)
    ensures AllBeside(log, from, before, place)
  {
    hide Sub, Apart;
    forall i | from <= i < |log|
      ensures Beside(log[i], before, place)
    {
      if i < |early| {
        assert log[i] == log[..|early|][i] == early[i];
      } else {
        assert Beside(log[i], mid, place);
      }
    }
  }

  lemma InsideIsBeside(t: Tree, before: Tree, place: Path, inner: Path)
    requires SameOutside(t, before, place + inner)
    ensures Beside(t, before, place)
  {
    hide Sub, Cut;
    forall r | Apart(r, place)
      ensures Sub(t, r) == Sub(before, r)
    {
      SameOutsideWider(t, before, place, inner);
      SameOutsideElsewhere(t, before, place, r);
    }
  }

  lemma ConfinedIsBeside(log: seq<Tree>, from: nat, before: Tree, place: Path, inner: Path)
    requires Confined(log, from, before, place + inner)
    ensures AllBeside(log, from, before, place)
  {
    hide Sub, Cut, Beside, SameOutside;
    forall i | from <= i < |log|
      ensures Beside(log[i], before, place)
    {
      InsideIsBeside(log[i], before, place, inner);
    }
  }

  lemma DirIsBeside(t: Tree, before: Tree, place: Path, inner: Path)
    requires SomeDirs(t, before, place + inner)
    ensures Beside(t, before, place)
  {
    hide Sub, SomeDirs;
    forall r | Apart(r, place)
      ensures Sub(t, r) == Sub(before, r)
    {
      ApartInside(r, place, inner);
      DirsElsewhere(t, before, place + inner, r);
    }
  }

  lemma DirsAreBeside(log: seq<Tree>, from: nat, before: Tree, place: Path, inner: Path)
    requires forall i :: from <= i < |log| ==> SomeDirs(log[i], before, place + inner)
    ensures AllBeside(log, from, before, place)
  {
    hide Beside, SomeDirs;
    forall i | from <= i < |log|
      ensures Beside(log[i], before, place)
    {
      DirIsBeside(log[i], before, place, inner);
    }
  }

  lemma SubBeside(t: Tree, before: Tree, place: Path, r: Path)
    requires Beside(t, before, place) && Apart(r, place)
    ensures Sub(t, r) == Sub(before, r)
  {
  }

  lemma SameEntry(t: Tree, before: Tree, r: Path)
    requires Sub(t, r) == Sub(before, r)
    ensures r in t <==> r in before
    ensures r in t ==> t[r] == before[r]
  {
    assert r + [] == r;
    assert [] in Sub(t, r) <==> [] in Sub(before, r);
  }

  lemma SubWithDirs(t: Tree, r: Path, rest: Path)
    ensures Sub(WithDirs(t, r + rest), r) == WithDirs(Sub(t, r), rest)
  {
    hide Sub, WithDirs;
    var after, expected := Sub(WithDirs(t, r + rest), r), WithDirs(Sub(t, r), rest);
    forall q: Path
      ensures q in after <==> q in expected
    {
      BelowBelow(r, q, rest);
    }
  }

  lemma SubPut(t: Tree, r: Path, rest: Path, entry: Entry)
    ensures Sub(t[r + rest := entry], r) == Sub(t, r)[rest := entry]
  {
    hide Sub;
    var after, expected := Sub(t[r + rest := entry], r), Sub(t, r)[rest := entry];
    forall q: Path
      ensures q in after <==> q in expected
      ensures q in after ==> after[q] == expected[q]
    {
      assert (r + q)[|r|..] == q && (r + rest)[|r|..] == rest;
    }
  }

  lemma WithDirsKeeps(t: Tree, p: Path, k: Path)
    ensures k in t ==> k in WithDirs(t, p) && WithDirs(t, p)[k] == t[k]
  {
  }
}
