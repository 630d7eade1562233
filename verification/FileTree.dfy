/** A directory tree, the file operations the save tools use, and every state a
    crash could leave behind. */
module FileTree {
  import opened Common

  type Path = seq<string>

  datatype Entry = Dir | File(content: seq<Byte>)

  /** The entries of a tree by path; the root of a subtree has the empty path. */
  type Tree = map<Path, Entry>

  /** Neither path is inside the other. */
  predicate Apart(p: Path, q: Path) {
    !(p <= q) && !(q <= p)
  }

  /** Every entry has its directories above it. */
  predicate Rooted(t: Tree) {
    forall k, n :: k in t && 0 <= n < |k| ==> k[..n] in t && t[k[..n]].Dir?
  }

  /** The top of a tree is there and is a directory. */
  predicate TopIsDir(t: Tree) {
    [] in t && t[[]].Dir?
  }

  /** The directory a path is in is there. */
  predicate HasParent(t: Tree, p: Path) {
    p != [] ==> p[..|p| - 1] in t && t[p[..|p| - 1]].Dir?
  }

  function Below(t: Tree, p: Path): (r: set<Path>)
    ensures forall q :: q in r <==> p + q in t
  {
    assert forall k :: k in t && p <= k ==> p + k[|p|..] == k;
    assert forall q: Path :: p + q in t ==> p <= p + q && (p + q)[|p|..] == q;
    set k | k in t && p <= k :: k[|p|..]
  }

  /** What is at a path, as a tree of its own; empty when nothing is. */
  function Sub(t: Tree, p: Path): (s: Tree)
    ensures forall q :: q in s <==> p + q in t
    ensures forall q :: q in s ==> s[q] == t[p + q]
  {
    map q | q in Below(t, p) :: t[p + q]
  }

  function Cut(t: Tree, p: Path): (s: Tree)
    ensures forall k :: k in s <==> k in t && !(p <= k)
    ensures forall k :: k in s ==> s[k] == t[k]
  {
    map k | k in t && !(p <= k) :: t[k]
  }

  /** A tree put at a path, in place of whatever was there. */
  function Graft(t: Tree, p: Path, s: Tree): (r: Tree)
    ensures forall k :: k in r <==> if p <= k then k[|p|..] in s else k in t
    ensures forall k :: k in r ==> r[k] == if p <= k then s[k[|p|..]] else t[k]
  {
    var moved := set q | q in s :: p + q;
    assert forall q :: q in s ==> p + q in moved && (p + q)[|p|..] == q;
    assert forall k :: p <= k && k[|p|..] in s ==> p + k[|p|..] == k;
    map k | k in Cut(t, p).Keys + moved :: if p <= k then s[k[|p|..]] else t[k]
  }

  lemma Joined(p: Path, q: Path)
    ensures p <= p + q && (p + q)[|p|..] == q
  {
  }

  lemma SubOfGraft(t: Tree, p: Path, s: Tree)
    ensures Sub(Graft(t, p, s), p) == s
  {
    forall q: Path {
      Joined(p, q);
    }
    assert forall q :: q in Sub(Graft(t, p, s), p) <==> q in s;
  }

  lemma SubElsewhere(t: Tree, p: Path, s: Tree, r: Path)
    requires Apart(p, r)
    ensures Sub(Graft(t, p, s), r) == Sub(t, r)
    ensures Sub(Cut(t, p), r) == Sub(t, r)
  {
    ApartBelow(p, r);
    assert forall q :: q in Sub(Graft(t, p, s), r) <==> q in Sub(t, r);
    assert forall q :: q in Sub(Cut(t, p), r) <==> q in Sub(t, r);
  }

  lemma ApartBelow(p: Path, r: Path)
    requires Apart(p, r)
    ensures forall q: Path :: !(p <= r + q)
  {
    forall q: Path
      ensures !(p <= r + q)
    {
      assert |p| <= |r| ==> (r + q)[..|p|] == r[..|p|];
      assert |r| <= |p| ==> (r + q)[..|r|] == r;
    }
  }

  lemma BelowBelow(r: Path, rest: Path, q: Path)
    ensures r + rest <= r + q <==> rest <= q
    ensures rest <= q ==> (r + q)[|r + rest|..] == q[|rest|..]
  {
    if rest <= q {
      assert r + q == (r + rest) + q[|rest|..];
    }
    if r + rest <= r + q {
      assert forall i | 0 <= i < |rest| :: rest[i] == (r + rest)[|r| + i] == (r + q)[|r| + i] == q[i];
    }
  }

  /** Seen from a directory above it. */
  lemma SubAboveGraft(t: Tree, r: Path, rest: Path, s: Tree)
    ensures Sub(Graft(t, r + rest, s), r) == Graft(Sub(t, r), rest, s)
  {
    var grafted, expected := Sub(Graft(t, r + rest, s), r), Graft(Sub(t, r), rest, s);
    forall q: Path
      ensures q in grafted <==> q in expected
      ensures q in grafted ==> grafted[q] == expected[q]
    {
      BelowBelow(r, rest, q);
    }
  }

  lemma SubAboveCut(t: Tree, r: Path, rest: Path)
    ensures Sub(Cut(t, r + rest), r) == Cut(Sub(t, r), rest)
  {
    var cut, expected := Sub(Cut(t, r + rest), r), Cut(Sub(t, r), rest);
    forall q: Path
      ensures q in cut <==> q in expected
    {
      BelowBelow(r, rest, q);
    }
  }

  /** The same tree everywhere but at a path. */
  ghost predicate SameOutside(a: Tree, b: Tree, p: Path) {
    Cut(a, p) == Cut(b, p)
  }

  /** From one step on, a log changes only at a path. */
  ghost predicate Confined(log: seq<Tree>, from: nat, base: Tree, p: Path) {
    forall i :: from <= i < |log| ==> SameOutside(log[i], base, p)
  }

  /** Steps at a path, then more steps inside it, are steps at the path. */
  lemma ConfinedChain(early: seq<Tree>, log: seq<Tree>, from: nat, base: Tree, mid: Tree, p: Path, rest: Path)
    requires from <= |early| <= |log| && log[..|early|] == early
    requires Confined(early, from, base, p) && SameOutside(mid, base, p)
    requires Confined(log, |early|, mid, p + rest)
    ensures Confined(log, from, base, p)
  {
    forall i | from <= i < |log|
      ensures SameOutside(log[i], base, p)
    {
      if i < |early| {
        assert log[i] == log[..|early|][i] == early[i];
      } else {
        SameOutsideWider(log[i], mid, p, rest);
      }
    }
  }

  lemma ConfinedElsewhere(log: seq<Tree>, from: nat, base: Tree, p: Path, r: Path)
    requires Confined(log, from, base, p) && Apart(p, r)
    ensures forall i :: from <= i < |log| ==> Sub(log[i], r) == Sub(base, r)
  {
    forall i | from <= i < |log|
      ensures Sub(log[i], r) == Sub(base, r)
    {
      SameOutsideElsewhere(log[i], base, p, r);
    }
  }

  lemma SameOutsideWider(a: Tree, b: Tree, p: Path, rest: Path)
    requires SameOutside(a, b, p + rest)
    ensures SameOutside(a, b, p)
  {
    forall k: Path | !(p <= k)
      ensures k in a <==> k in b
      ensures k in a ==> a[k] == b[k]
    {
      assert (p + rest)[..|p|] == p;
      assert k in Cut(a, p + rest) <==> k in a;
      assert k in Cut(b, p + rest) <==> k in b;
    }
  }

  lemma SameOutsideElsewhere(a: Tree, b: Tree, p: Path, r: Path)
    requires SameOutside(a, b, p) && Apart(p, r)
    ensures Sub(a, r) == Sub(b, r)
  {
    SubElsewhere(a, p, map[], r);
    SubElsewhere(b, p, map[], r);
  }

  lemma CutOfGraft(t: Tree, p: Path, s: Tree)
    ensures SameOutside(Graft(t, p, s), t, p)
  {
  }

  // ---- trees stay trees --------------------------------------------------------

  lemma PrefixOfPrefix(p: Path, k: Path, n: nat)
    requires n <= |k|
    ensures p <= k[..n] ==> p <= k
  {
  }

  lemma RootedSub(t: Tree, p: Path)
    requires Rooted(t)
    ensures Rooted(Sub(t, p))
    ensures p !in t ==> Sub(t, p) == map[]
  {
    var s := Sub(t, p);
    forall k, n | k in s && 0 <= n < |k|
      ensures k[..n] in s && s[k[..n]].Dir?
    {
      assert (p + k)[..|p| + n] == p + k[..n];
    }
    forall q: Path | p + q in t
      ensures p in t
    {
      assert (p + q)[..|p|] == p;
      assert q == [] ==> p + q == p;
    }
  }

  lemma RootedCut(t: Tree, p: Path)
    requires Rooted(t)
    ensures Rooted(Cut(t, p))
  {
    forall k, n | k in Cut(t, p) && 0 <= n < |k|
      ensures k[..n] in Cut(t, p)
    {
      PrefixOfPrefix(p, k, n);
    }
  }

  lemma RootedGraft(t: Tree, p: Path, s: Tree)
    requires Rooted(t) && Rooted(s) && HasParent(t, p)
    ensures Rooted(Graft(t, p, s))
  {
    var r := Graft(t, p, s);
    forall k, n | k in r && 0 <= n < |k|
      ensures k[..n] in r && r[k[..n]].Dir?
    {
      if p <= k {
        if n < |p| {
          assert k[..n] == p[..n] == p[..|p| - 1][..n];
          assert n == |p| - 1 ==> k[..n] == p[..|p| - 1];
        } else {
          assert k[..n][..|p|] == p && k[..n][|p|..] == k[|p|..][..n - |p|];
        }
      } else {
        PrefixOfPrefix(p, k, n);
      }
    }
  }

  lemma RootedPut(t: Tree, p: Path, entry: Entry)
    requires Rooted(t) && HasParent(t, p) && (p in t && t[p].Dir? ==> entry.Dir?)
    ensures Rooted(t[p := entry])
  {
    var r := t[p := entry];
    forall k, n | k in r && 0 <= n < |k|
      ensures k[..n] in r && r[k[..n]].Dir?
    {
      if k == p {
        assert k[..n] == p[..|p| - 1][..n];
        assert n == |p| - 1 ==> k[..n] == p[..|p| - 1];
      } else {
        assert k in t && k[..n] in t;
      }
    }
  }

  lemma ParentOutside(t: Tree, p: Path, from: Path)
    requires HasParent(t, p) && Apart(from, p)
    ensures HasParent(Cut(t, from), p)
  {
    if p != [] {
      PrefixOfPrefix(from, p, |p| - 1);
    }
  }

  lemma RootedRename(t: Tree, from: Path, to: Path)
    requires Rooted(t) && CanRename(t, from, to)
    ensures Rooted(Renamed(t, from, to))
  {
    hide Rooted, Sub, Cut, Graft, HasParent;
    RootedSub(t, from);
    RootedCut(t, from);
    ParentOutside(t, to, from);
    RootedGraft(Cut(t, from), to, Sub(t, from));
  }

  /** Entries of a tree as they are in another. */
  ghost predicate Pruned(t: Tree, before: Tree) {
    forall k :: k in t ==> k in before && t[k] == before[k]
  }

  /** A copy of a tree that is not finished: some of its directories, some of its files,
      and whatever bytes are in those so far. */
  predicate PartialCopy(part: Tree, source: Tree) {
    forall k :: k in part ==> k in source && (part[k].Dir? <==> source[k].Dir?)
  }

  // ---- renaming ----------------------------------------------------------------

  /** Whether the system lets a rename through at all: over nothing, over an
      empty directory, or a file over a file. */
  predicate CanRename(t: Tree, from: Path, to: Path) {
    && from in t && to != [] && HasParent(t, to) && !(from <= to) && !(to <= from)
    && (to !in t || (t[to].Dir? && t[from].Dir? && Below(t, to) == {[]}) || (t[to].File? && t[from].File?))
  }

  function Renamed(t: Tree, from: Path, to: Path): Tree {
    Graft(Cut(t, from), to, Sub(t, from))
  }

  lemma RenamedPlaces(t: Tree, from: Path, to: Path)
    requires Apart(from, to)
    ensures Sub(Renamed(t, from, to), to) == Sub(t, from)
    ensures Sub(Renamed(t, from, to), from) == map[]
  {
    hide Sub, Graft, Cut;
    SubOfGraft(Cut(t, from), to, Sub(t, from));
    SubElsewhere(Cut(t, from), to, Sub(t, from), from);
    SubOfCut(t, from);
  }

  lemma TopRenamed(t: Tree, from: Path, to: Path)
    requires TopIsDir(t) && from != [] && to != []
    ensures TopIsDir(Renamed(t, from, to))
  {
  }

  lemma ThereNow(t: Tree, p: Path)
    ensures p in t <==> [] in Sub(t, p)
    ensures p in t ==> t[p] == Sub(t, p)[[]]
  {
    assert p + [] == p;
  }

  lemma SubOfCut(t: Tree, p: Path)
    ensures Sub(Cut(t, p), p) == map[]
  {
    forall q: Path
      ensures q !in Sub(Cut(t, p), p)
    {
      Joined(p, q);
    }
  }

  lemma RenamedElsewhere(t: Tree, from: Path, to: Path, r: Path)
    requires Apart(r, from) && Apart(r, to)
    ensures Sub(Renamed(t, from, to), r) == Sub(t, r)
  {
    hide Sub, Graft, Cut;
    SubElsewhere(Cut(t, from), to, Sub(t, from), r);
    SubElsewhere(t, from, map[], r);
  }

  /** The paths of the files and of the directories above them. */
  function Above(files: set<Path>): (r: set<Path>)
    ensures forall k :: k in r <==> exists f :: f in files && k <= f
  {
    var r := set f, n | f in files && 0 <= n <= |f| :: f[..n];
    assert forall k, f :: f in files && k <= f ==> f[..|k|] == k;
    r
  }

  /** The tree of one file per path, with the directories above them. */
  function FilesTree(files: map<Path, seq<Byte>>): Tree {
    map k | k in Above(files.Keys) :: if k in files then File(files[k]) else Dir
  }

  /** What was gone through, stopped at its step of that number, or at its last when it has
      fewer. */
  ghost predicate StoppedAt(log: seq<Tree>, steps: nat, before: Tree, after: Tree) {
    log != [] && log[0] == before && after == log[if steps < |log| then steps else |log| - 1]
  }

  /** A disk: the tree that is on it now, every state it went through (any of which a
      crash could leave), and how many outside calls failed. */
  class Disk {
    var root: Tree
    var log: seq<Tree>
    var faults: nat

    ghost predicate Valid()
      reads this
    {
      log != [] && log[|log| - 1] == root && forall i :: 0 <= i < |log| ==> Rooted(log[i])
    }

    constructor (root: Tree)
      requires Rooted(root)
      ensures Valid() && this.root == root && log == [root] && faults == 0
    {
      this.root, log, faults := root, [root], 0;
    }

    /** The log only grows. */
    twostate predicate Grown()
      reads this
    {
      && old(|log|) <= |log| && log[..old(|log|)] == old(log)
      && old(faults) <= faults
    }

    /** Whether an outside call goes through is not ours to choose. */
    method Try() returns (ok: bool)
      modifies `faults
      ensures faults == if ok then old(faults) else old(faults) + 1
    {
      ok := *;
      if !ok {
        faults := faults + 1;
      }
    }

    /** One more state. */
    method Step(t: Tree)
      requires Valid() && Rooted(t)
      modifies `root, `log
      ensures Valid() && root == t && log == old(log) + [t]
    {
      root := t;
      log := log + [t];
    }

    method Rename(from: Path, to: Path) returns (ok: bool)
      requires Valid()
      modifies this
      ensures Valid() && Grown()
      ensures ok ==> CanRename(old(root), from, to) && root == Renamed(old(root), from, to)
                     && log == old(log) + [root]
      ensures !ok ==> root == old(root) && log == old(log)
      ensures ok <==> faults == old(faults) && CanRename(old(root), from, to)
    {
      hide Rooted, Renamed, CanRename;
      if !CanRename(root, from, to) {
        return false;
      }
      ok := Try();
      if ok {
        RootedRename(root, from, to);
        Step(Renamed(root, from, to));
      }
    }

    /** Removing a tree, entry by entry: it may stop half way. */
    method RemoveTree(p: Path) returns (ok: bool)
      requires Valid()
      modifies this
      ensures Valid() && Grown()
      ensures Confined(log, old(|log|), old(root), p)
      ensures SameOutside(root, old(root), p)
      ensures forall i :: old(|log|) <= i < |log| ==> Pruned(log[i], old(root))
      ensures ok ==> root == Cut(old(root), p)
      ensures ok <==> faults == old(faults) && p in old(root) && old(root)[p].Dir?
      ensures p in old(root) && old(root)[p].File? ==> root == old(root) && log == old(log)
    {
      hide Rooted, SameOutside;
      SameOutsideSame(root, p);
      if p !in root || root[p].File? {
        return false;
      }
      var steps: nat := *;
      while steps > 0
        invariant Valid()
        invariant old(|log|) <= |log| && log[..old(|log|)] == old(log) && faults == old(faults)
        invariant forall i :: old(|log|) <= i < |log| ==> SameOutside(log[i], old(root), p)
        invariant forall i :: old(|log|) <= i < |log| ==> Pruned(log[i], old(root))
        invariant SameOutside(root, old(root), p) && Pruned(root, old(root))
      {
        var victim: Path := *;
        if p <= victim {
          CutInside(root, old(root), p, victim);
          RootedCut(root, victim);
          Step(Cut(root, victim));
        }
        steps := steps - 1;
      }
      ok := Try();
      if ok {
        CutAgain(root, old(root), p);
        RootedCut(root, p);
        Step(Cut(root, p));
      }
    }

    /** Copying a tree: its bare directory is made first, and until the copy is finished a
        part of the tree is at the target. The source has to be a directory. */
    method CopyTree(source: Tree, to: Path) returns (ok: bool)
      requires Valid() && Rooted(source) && HasParent(root, to)
      modifies this
      ensures Valid() && Grown()
      ensures Confined(log, old(|log|), old(root), to)
      ensures SameOutside(root, old(root), to)
      ensures Copying(log, old(|log|), old(root), to, source)
      ensures ok ==> root == Graft(old(root), to, source)
      ensures ok <==> faults == old(faults) && to !in old(root) && TopIsDir(source)
      ensures to in old(root) || !TopIsDir(source) ==> root == old(root) && log == old(log)
      ensures |log| > old(|log|) ==> log[old(|log|)] == Graft(old(root), to, BARE)
    {
      hide Rooted, Graft, Cut, Sub, SameOutside, HasParent, PartialCopy, Copying, Confined, BARE;
      SameOutsideSame(root, to);
      NotCopying(log, root, to, source);
      if to in root || !TopIsDir(source) {
        return false;
      }
      var before := root;
      ok := Try();
      if !ok {
        return;
      }
      BareIsPartial(source);
      PutPart(before, to, source, BARE, |log|);
      ok := CopyRest(before, to, source, old(|log|));
      CopyingIsConfined(log, old(|log|), before, to, source);
    }

    /** The copy, once its directory is there. */
    method CopyRest(before: Tree, to: Path, source: Tree, ghost from: nat) returns (ok: bool)
      requires Valid() && Rooted(before) && HasParent(before, to) && Rooted(source)
      requires Copying(log, from, before, to, source) && SameOutside(root, before, to)
      modifies this
      ensures Valid() && Grown()
      ensures Copying(log, from, before, to, source) && SameOutside(root, before, to)
      ensures ok ==> root == Graft(before, to, source)
      ensures ok <==> faults == old(faults)
    {
      hide Rooted, Graft, Sub, SameOutside, HasParent, PartialCopy, Copying;
      var steps: nat := *;
      while steps > 0
        invariant Valid()
        invariant old(|log|) <= |log| && log[..old(|log|)] == old(log) && faults == old(faults)
        invariant Copying(log, from, before, to, source) && SameOutside(root, before, to)
      {
        var part: Tree := *;
        if Rooted(part) && PartialCopy(part, source) {
          PutPart(before, to, source, part, from);
        }
        steps := steps - 1;
      }
      ok := Try();
      if ok {
        CopyIsPartial(source);
        PutPart(before, to, source, source, from);
      }
    }

    /** One more state of a copy. */
    method PutPart(before: Tree, to: Path, source: Tree, part: Tree, ghost from: nat)
      requires Valid() && Rooted(before) && HasParent(before, to) && Rooted(part) && PartialCopy(part, source)
      requires Copying(log, from, before, to, source)
      modifies `root, `log
      ensures Valid() && root == Graft(before, to, part) && log == old(log) + [root]
      ensures Copying(log, from, before, to, source) && SameOutside(root, before, to)
    {
      hide Rooted, Graft, Sub, SameOutside, HasParent, PartialCopy, Copying;
      PutThere(before, to, part);
      StillCopying(log, from, before, to, source, part);
      Step(Graft(before, to, part));
    }

    /** Removing one file. */
    method Unlink(p: Path) returns (ok: bool)
      requires Valid()
      modifies this
      ensures Valid() && Grown()
      ensures Confined(log, old(|log|), old(root), p)
      ensures SameOutside(root, old(root), p)
      ensures ok ==> root == Cut(old(root), p)
      ensures ok <==> faults == old(faults) && p in old(root) && old(root)[p].File?
    {
      hide Rooted;
      if p !in root || root[p].Dir? {
        return false;
      }
      ok := Try();
      if ok {
        RootedCut(root, p);
        Step(Cut(root, p));
      }
    }

    /** Making a directory and those above it, from the top. */
    method MakeDirs(p: Path) returns (ok: bool)
      requires Valid()
      modifies this
      ensures Valid() && Grown()
      ensures forall i :: old(|log|) <= i < |log| ==> SomeDirs(log[i], old(root), p)
      ensures SomeDirs(root, old(root), p)
      ensures ok ==> root == WithDirs(old(root), p)
      ensures ok <==> faults == old(faults) && NoFileAbove(old(root), p)
    {
      hide Rooted, WithDirs;
      if !NoFileAbove(root, p) {
        return false;
      }
      var n := 0;
      while n <= |p|
        invariant 0 <= n <= |p| + 1 && Valid()
        invariant old(|log|) <= |log| && log[..old(|log|)] == old(log) && faults == old(faults)
        invariant forall i :: old(|log|) <= i < |log| ==> SomeDirs(log[i], old(root), p)
        invariant if n == 0 then root == old(root) else root == WithDirs(old(root), p[..n - 1])
      {
        ok := Try();
        if !ok {
          return;
        }
        DirsOneByOne(old(root), p, n);
        Step(root[p[..n] := Dir]);
        n := n + 1;
      }
      assert p[..|p|] == p;
      ok := true;
    }

    /** Writing a file: until it is finished it may hold a part of the content. */
    method WriteFile(p: Path, content: seq<Byte>) returns (ok: bool)
      requires Valid()
      modifies this
      ensures Valid() && Grown()
      ensures Confined(log, old(|log|), old(root), p)
      ensures SameOutside(root, old(root), p)
      ensures ok ==> (p in old(root) ==> old(root)[p].File?) && root == old(root)[p := File(content)]
      ensures ok <==> faults == old(faults) && CanWrite(old(root), p)
      ensures !CanWrite(old(root), p) ==> root == old(root) && log == old(log)
    {
      hide Rooted;
      if !CanWrite(root, p) {
        return false;
      }
      var before := root;
      var part: seq<Byte> := *;
      RootedPut(before, p, File(part));
      Step(before[p := File(part)]);
      ok := Try();
      if ok {
        RootedPut(before, p, File(content));
        Step(before[p := File(content)]);
      }
    }
  }

  /** From one step on, a log is a copy of a tree to a path being made. */
  ghost predicate Copying(log: seq<Tree>, from: nat, base: Tree, to: Path, source: Tree) {
    forall i :: from <= i < |log| ==> SameOutside(log[i], base, to) && PartialCopy(Sub(log[i], to), source)
  }

  lemma NotCopying(log: seq<Tree>, base: Tree, to: Path, source: Tree)
    ensures Copying(log, |log|, base, to, source) && Confined(log, |log|, base, to)
  {
  }

  lemma StillCopying(log: seq<Tree>, from: nat, base: Tree, to: Path, source: Tree, part: Tree)
    requires Copying(log, from, base, to, source) && PartialCopy(part, source)
    requires Rooted(base) && HasParent(base, to) && Rooted(part)
    ensures Copying(log + [Graft(base, to, part)], from, base, to, source)
  {
    hide Sub, Graft, SameOutside, PartialCopy, HasParent;
    PutThere(base, to, part);
  }

  lemma CopyingIsConfined(log: seq<Tree>, from: nat, base: Tree, to: Path, source: Tree)
    requires Copying(log, from, base, to, source)
    ensures Confined(log, from, base, to)
  {
  }

  /** A file can be at a path: it has its directory, and none is in its place. */
  predicate CanWrite(t: Tree, p: Path) {
    HasParent(t, p) && !(p in t && t[p].Dir?)
  }

  lemma SameOutsideSame(t: Tree, p: Path)
    ensures SameOutside(t, t, p)
  {
  }

  lemma CutAgain(a: Tree, b: Tree, p: Path)
    requires SameOutside(a, b, p)
    ensures Cut(a, p) == Cut(b, p) && SameOutside(Cut(a, p), b, p)
  {
    CutInside(a, b, p, p);
  }

  /** One bare directory. */
  const BARE: Tree := map[[] := Dir]

  lemma BareIsPartial(source: Tree)
    requires TopIsDir(source)
    ensures Rooted(BARE) && PartialCopy(BARE, source)
  {
  }

  lemma CopyIsPartial(source: Tree)
    ensures PartialCopy(source, source)
  {
  }

  lemma PutThere(before: Tree, to: Path, part: Tree)
    requires Rooted(before) && HasParent(before, to) && Rooted(part)
    ensures Rooted(Graft(before, to, part)) && SameOutside(Graft(before, to, part), before, to)
    ensures Sub(Graft(before, to, part), to) == part
  {
    hide Rooted, Sub, Cut, Graft, HasParent, SameOutside;
    RootedGraft(before, to, part);
    CutOfGraft(before, to, part);
    SubOfGraft(before, to, part);
  }

  /** No file stands at a path or above it. */
  predicate NoFileAbove(t: Tree, p: Path) {
    forall n :: 0 <= n <= |p| && p[..n] in t ==> t[p[..n]].Dir?
  }

  /** Some of the directories down to a path, from the top. */
  ghost predicate SomeDirs(after: Tree, before: Tree, p: Path) {
    after == before || exists n :: 0 <= n <= |p| && after == WithDirs(before, p[..n])
  }

  lemma DirsOneByOne(t: Tree, p: Path, n: nat)
    requires n <= |p| && NoFileAbove(t, p)
    ensures WithDirs(t, p[..n]) == (if n == 0 then t else WithDirs(t, p[..n - 1]))[p[..n] := Dir]
    ensures Rooted(t) ==> Rooted(WithDirs(t, p[..n]))
  {
    if Rooted(t) {
      RootedDirs(t, p, n);
    }
    var after := WithDirs(t, p[..n]);
    var before := (if n == 0 then t else WithDirs(t, p[..n - 1]))[p[..n] := Dir];
    forall k: Path
      ensures k in after <==> k in before
      ensures k in after ==> after[k] == before[k]
    {
      PrefixesOneByOne(k, p, n);
    }
  }

  lemma RootedDirs(t: Tree, p: Path, n: nat)
    requires n <= |p| && NoFileAbove(t, p) && Rooted(t)
    ensures Rooted(WithDirs(t, p[..n]))
  {
    var r := WithDirs(t, p[..n]);
    forall k, m | k in r && 0 <= m < |k|
      ensures k[..m] in r && r[k[..m]].Dir?
    {
      if k !in t {
        assert k[..m] == p[..n][..m] == p[..m];
      }
    }
  }

  lemma PrefixesOneByOne(k: Path, p: Path, n: nat)
    requires n <= |p|
    ensures k <= p[..n] <==> k == p[..n] || (n > 0 && k <= p[..n - 1])
  {
    if k <= p[..n] && |k| < n {
      assert k == p[..n][..|k|] == p[..n - 1][..|k|];
    }
  }

  lemma DirsElsewhere(after: Tree, before: Tree, p: Path, r: Path)
    requires SomeDirs(after, before, p) && !(r <= p)
    ensures Sub(after, r) == Sub(before, r)
  {
    forall q: Path
      ensures !(r + q <= p)
    {
      assert (r + q)[..|r|] == r;
    }
  }

  function WithDirs(t: Tree, p: Path): (r: Tree)
    ensures forall k :: k in r <==> k in t || k <= p
    ensures forall k :: k in r ==> r[k] == if k in t then t[k] else Dir
  {
    var above := set n | 0 <= n <= |p| :: p[..n];
    assert forall k :: k <= p ==> p[..|k|] == k;
    map k | k in t.Keys + above :: if k in t then t[k] else Dir
  }

  lemma CutInside(a: Tree, b: Tree, p: Path, victim: Path)
    requires p <= victim && SameOutside(a, b, p)
    ensures SameOutside(Cut(a, victim), b, p)
  {
    forall k: Path
      ensures k in Cut(Cut(a, victim), p) <==> k in Cut(a, p)
    {
      assert victim <= k ==> k[..|p|] == victim[..|p|];
    }
  }

  lemma TopOutside(t: Tree, before: Tree, place: Path)
    requires SameOutside(t, before, place) && place != []
    ensures TopIsDir(before) <==> TopIsDir(t)
  {
    assert !(place <= []);
    assert [] in before <==> [] in Cut(before, place);
    assert [] in t <==> [] in Cut(t, place);
  }
}
