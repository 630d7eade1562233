/** One shader cache per game, seeded once from the fullest slot
    (docker/switch-room.py, cache_mounts). */
module SharedCache {
  import opened Common
  import opened FileTree
  import opened TreeFrames

  function Shared(name: string): Path {
    [name]
  }

  function Pending(name: string): Path {
    [name + ".pending"]
  }

  lemma PlacesApart(name: string)
    ensures Apart(Shared(name), Pending(name))
  {
    var pending := name + ".pending";
    assert |pending| == |name| + 8 && Shared(name)[0] == name && Pending(name)[0] == pending;
  }

  /** What a crash may leave: the shared cache as it was, or, where there was none, the
      whole of what seeds it; and nothing else changed but the pending copy. */
  ghost predicate CacheStep(t: Tree, before: Tree, name: string, seed: Tree) {
    && (Sub(t, Shared(name)) == Sub(before, Shared(name))
        || (Shared(name) !in before && Sub(t, Shared(name)) == seed))
    && (forall r :: Apart(r, Shared(name)) && Apart(r, Pending(name)) ==> Sub(t, r) == Sub(before, r))
  }

  /** From one step on, all are such steps, and none puts a file where the pending copy
      goes. */
  ghost predicate AllSteps(log: seq<Tree>, from: nat, before: Tree, name: string, seed: Tree) {
    forall i :: from <= i < |log| ==> StepAlone(log[i], before, name, seed)
  }

  ghost predicate StepAlone(t: Tree, before: Tree, name: string, seed: Tree) {
    CacheStep(t, before, name, seed) && TopIsDir(t) && (FileFree(before, name) ==> FileFree(t, name))
  }

  /** The fullest of some candidates; of equals, the last. */
  ghost predicate IsFullest(sizes: seq<nat>, k: nat) {
    k < |sizes| && (forall j :: 0 <= j < |sizes| ==> sizes[j] <= sizes[k])
    && (forall j :: k < j < |sizes| ==> sizes[j] < sizes[k])
  }

  method Fullest(sizes: seq<nat>) returns (k: nat)
    requires sizes != []
    ensures IsFullest(sizes, k)
  {
    k := 0;
    for i := 1 to |sizes|
      invariant k < i && (forall j :: 0 <= j < i ==> sizes[j] <= sizes[k])
      invariant forall j :: k < j < i ==> sizes[j] < sizes[k]
    {
      if sizes[i] >= sizes[k] {
        k := i;
      }
    }
  }

  /** What seeds the cache: the fullest slot's own, or an empty directory. */
  ghost predicate IsSeed(t: Tree, found: seq<Path>, sizes: seq<nat>, seed: Tree) {
    if found == [] then seed == map[[] := Dir]
    else |sizes| == |found| && exists k: nat :: IsFullest(sizes, k) && seed == Sub(t, found[k])
  }

  /** No file is where the pending copy goes. */
  predicate FileFree(t: Tree, name: string) {
    Pending(name) in t ==> t[Pending(name)].Dir?
  }

  /** From one step on, the top is a directory and no file is where the pending copy goes. */
  ghost predicate AllFree(log: seq<Tree>, from: nat, name: string) {
    forall i :: from <= i < |log| ==> TopIsDir(log[i]) && FileFree(log[i], name)
  }

  /** Nothing at the pending place, whatever an interrupted call left there. */
  method ClearPending(disk: Disk, name: string) returns (ok: bool)
    requires disk.Valid() && TopIsDir(disk.root)
    modifies disk
    ensures disk.Valid() && disk.Grown()
    ensures AllBeside(disk.log, old(|disk.log|), old(disk.root), Pending(name))
    ensures AllFree(disk.log, old(|disk.log|), name)
    ensures Beside(disk.root, old(disk.root), Pending(name)) && TopIsDir(disk.root)
    ensures ok ==> Sub(disk.root, Pending(name)) == map[]
    ensures ok <==> disk.faults == old(disk.faults) && FileFree(old(disk.root), name)
  {
    hide Sub, Beside, AllBeside, AllFree, SameOutside, Confined, Rooted, Pruned;
    var place := Pending(name);
    assert place + [] == place;
    ghost var before, from := disk.root, |disk.log|;
    NothingDone(disk.log, before, place, name);
    RootedSub(before, place);
    ok := true;
    if place in disk.root {
      ok := disk.RemoveTree(place);
      ConfinedIsBeside(disk.log, from, before, place, []);
      if before[place].Dir? {
        RemovalIsFree(disk.log, from, before, name);
      }
      InsideIsBeside(disk.root, before, place, []);
      SubOfCut(before, place);
      TopOutside(disk.root, before, place);
    }
  }

  lemma NothingDone(log: seq<Tree>, t: Tree, place: Path, name: string)
    ensures AllBeside(log, |log|, t, place) && Beside(t, t, place) && AllFree(log, |log|, name)
  {
  }

  lemma RemovalIsFree(log: seq<Tree>, from: nat, before: Tree, name: string)
    requires forall i :: from <= i < |log| ==> Pruned(log[i], before)
    requires Confined(log, from, before, Pending(name))
    requires TopIsDir(before) && FileFree(before, name)
    ensures AllFree(log, from, name)
  {
    hide SameOutside;
    forall i | from <= i < |log|
      ensures TopIsDir(log[i])
    {
      TopOutside(log[i], before, Pending(name));
    }
  }

  /** The pending copy, or an empty directory when no slot has a cache. */
  method Fill(disk: Disk, name: string, source: Option<Tree>) returns (ok: bool)
    requires disk.Valid() && Sub(disk.root, Pending(name)) == map[] && TopIsDir(disk.root)
    requires source.Some? ==> Rooted(source.value) && TopIsDir(source.value)
    modifies disk
    ensures disk.Valid() && disk.Grown()
    ensures AllBeside(disk.log, old(|disk.log|), old(disk.root), Pending(name))
    ensures AllFree(disk.log, old(|disk.log|), name)
    ensures Beside(disk.root, old(disk.root), Pending(name)) && TopIsDir(disk.root)
    ensures ok ==> Sub(disk.root, Pending(name)) == if source.Some? then source.value else map[[] := Dir]
    ensures ok <==> disk.faults == old(disk.faults)
  {
    hide Sub, Beside, AllBeside, AllFree, SameOutside, Confined, SomeDirs, Copying, Rooted;
    var place := Pending(name);
    assert place + [] == place;
    ghost var before, from := disk.root, |disk.log|;
    ThereNow(before, place);
    OneStepDown(before, name);
    if source.Some? {
      ok := disk.CopyTree(source.value, place);
      ConfinedIsBeside(disk.log, from, before, place, []);
      CopyIsFree(disk.log, from, before, name, source.value);
      InsideIsBeside(disk.root, before, place, []);
      SubOfGraft(before, place, source.value);
      TopOutside(disk.root, before, place);
    } else {
      ok := disk.MakeDirs(place);
      DirsAreBeside(disk.log, from, before, place, []);
      DirsAreFree(disk.log, from, before, name);
      DirIsBeside(disk.root, before, place, []);
      OnlyTheDirectory(before, name);
      TopOfDirs(disk.root, before, place);
    }
  }

  lemma CopyIsFree(log: seq<Tree>, from: nat, before: Tree, name: string, source: Tree)
    requires Copying(log, from, before, Pending(name), source) && TopIsDir(before) && TopIsDir(source)
    ensures AllFree(log, from, name)
  {
    hide Sub, SameOutside;
    forall i | from <= i < |log|
      ensures TopIsDir(log[i]) && FileFree(log[i], name)
    {
      TopOutside(log[i], before, Pending(name));
      ThereNow(log[i], Pending(name));
    }
  }

  lemma DirsAreFree(log: seq<Tree>, from: nat, before: Tree, name: string)
    requires forall i :: from <= i < |log| ==> SomeDirs(log[i], before, Pending(name))
    requires TopIsDir(before) && Pending(name) !in before
    ensures AllFree(log, from, name)
  {
  }

  lemma OneStepDown(t: Tree, name: string)
    requires Pending(name) !in t && TopIsDir(t)
    ensures NoFileAbove(t, Pending(name)) && HasParent(t, Pending(name))
  {
    assert Pending(name)[..0] == [];
    forall n | 0 <= n <= 1 && Pending(name)[..n] in t
      ensures t[Pending(name)[..n]].Dir?
    {
      assert Pending(name)[..0] == [] && Pending(name)[..1] == Pending(name);
    }
  }

  lemma OnlyTheDirectory(t: Tree, name: string)
    requires Sub(t, Pending(name)) == map[]
    ensures Sub(WithDirs(t, Pending(name)), Pending(name)) == map[[] := Dir]
  {
    var place := Pending(name);
    assert place + [] == place;
    SubWithDirs(t, place, []);
  }

  lemma TopOfDirs(t: Tree, before: Tree, p: Path)
    requires SomeDirs(t, before, p) && TopIsDir(before)
    ensures TopIsDir(t)
  {
  }

  /** Slots that have a cache of their own, apart from the shared one. */
  predicate Candidates(t: Tree, found: seq<Path>, name: string) {
    forall k :: 0 <= k < |found| ==>
      found[k] in t && t[found[k]].Dir? && Apart(found[k], Pending(name)) && Apart(found[k], Shared(name))
  }

  /** Makes sure the shared cache is there. One that is there is never touched; it
      appears whole, at once. */
  method Share(disk: Disk, name: string, found: seq<Path>, sizes: seq<nat>) returns (ok: bool, ghost seed: Tree)
    requires disk.Valid() && |sizes| == |found| && TopIsDir(disk.root)
    requires Shared(name) in disk.root || Candidates(disk.root, found, name)
    modifies disk
    ensures disk.Valid() && disk.Grown() && TopIsDir(disk.root)
    ensures IsSeed(old(disk.root), found, sizes, seed)
    ensures AllSteps(disk.log, old(|disk.log|), old(disk.root), name, seed)
    ensures CacheStep(disk.root, old(disk.root), name, seed)
    ensures Shared(name) in old(disk.root) ==> ok && disk.root == old(disk.root) && disk.log == old(disk.log)
    ensures Shared(name) !in old(disk.root) && ok ==> Sub(disk.root, Shared(name)) == seed
    ensures ok <==> Shared(name) in old(disk.root)
                    || (disk.faults == old(disk.faults) && FileFree(old(disk.root), name))
  {
    hide Sub, Beside, AllBeside, AllFree, AllSteps, CacheStep, CanRename, Renamed, FileFree, TopIsDir, Shared, Pending,
      Apart, IsSeed, Rooted;
    ghost var t0, from := disk.root, |disk.log|;
    var source: Option<Path>;
    source, seed := Choose(disk.root, found, sizes);
    NoStep(disk.log, t0, name, seed);
    if Shared(name) in disk.root {
      return true, seed;
    }
    ok := Build(disk, name, source);
    BesideIsAStep(disk.log, from, disk.root, t0, name, seed);
    if !ok {
      return;
    }
    ghost var t2, log2 := disk.root, disk.log;
    SeedHasTop(t0, found, sizes, seed);
    CanShare(t2, t0, name, seed);
    ok := disk.Rename(Pending(name), Shared(name));
    SharedIsAStep(t2, t0, name, seed);
    StepsMore(disk.log, log2, disk.root, from, t0, name, seed);
  }

  /** One call stopped by a crash after so many steps. */
  method StoppedShare(left: Tree, ghost state: Tree, name: string, found: seq<Path>, sizes: seq<nat>, steps: nat,
                      ghost seed: Tree)
    returns (after: Tree, ghost log: seq<Tree>)
    requires Rooted(left) && TopIsDir(left) && FileFree(left, name) && CacheStep(left, state, name, seed)
    requires |sizes| == |found| && Candidates(state, found, name) && IsSeed(state, found, sizes, seed)
    ensures Rooted(after) && TopIsDir(after) && FileFree(after, name) && CacheStep(after, state, name, seed)
    ensures StoppedAt(log, steps, left, after) && AllSteps(log, 1, left, name, seed)
  {
    hide Sub, CacheStep, FileFree, TopIsDir, Shared, Rooted, Candidates, IsSeed, AllSteps;
    CandidatesStay(left, state, found, sizes, name, seed);
    var disk := new Disk(left);
    var ok: bool;
    ghost var again;
    ok, again := Share(disk, name, found, sizes);
    var reached := if steps < |disk.log| then steps else |disk.log| - 1;
    StepOf(disk.log, reached, left, name, again);
    SameSeed(left, found, sizes, seed, again);
    CacheStepTwice(disk.log[reached], left, state, name, seed);
    after, log := disk.log[reached], disk.log;
  }

  /** Any number of calls, each stopped by a crash after as many steps as it likes, then one
      that is let through: unless an outside call of that last one fails, the shared cache is
      there, the one there was or the whole of what seeds it. */
  method ShareAfterCrashes(state: Tree, name: string, found: seq<Path>, sizes: seq<nat>, crashes: seq<nat>)
    returns (ok: bool, disk: Disk, ghost seed: Tree, ghost trees: seq<Tree>, ghost logs: seq<seq<Tree>>)
    requires Rooted(state) && TopIsDir(state) && FileFree(state, name)
    requires |sizes| == |found| && Candidates(state, found, name)
    ensures |logs| == |crashes| && |trees| == |crashes| + 1 && trees[0] == state
    ensures forall k :: 0 <= k < |crashes| ==>
              && StoppedAt(logs[k], crashes[k], trees[k], trees[k + 1])
              && AllSteps(logs[k], 1, trees[k], name, seed)
    ensures fresh(disk) && disk.Valid() && disk.log != [] && disk.log[0] == trees[|crashes|]
    ensures AllSteps(disk.log, 1, trees[|crashes|], name, seed)
    ensures IsSeed(state, found, sizes, seed) && CacheStep(disk.root, state, name, seed)
    ensures disk.faults == 0 ==> ok
    ensures ok ==> Sub(disk.root, Shared(name)) == if Shared(name) in state then Sub(state, Shared(name)) else seed
  {
    hide Sub, CacheStep, FileFree, TopIsDir, Shared, Rooted, Candidates, IsSeed, AllSteps;
    var source: Option<Path>;
    source, seed := Choose(state, found, sizes);
    var left := state;
    trees, logs := [state], [];
    NoStep([], state, name, seed);
    for k := 0 to |crashes|
      invariant Rooted(left) && TopIsDir(left) && FileFree(left, name) && CacheStep(left, state, name, seed)
      invariant |logs| == k && |trees| == k + 1 && trees[0] == state && trees[k] == left
      invariant forall i :: 0 <= i < k ==>
                  && StoppedAt(logs[i], crashes[i], trees[i], trees[i + 1])
                  && AllSteps(logs[i], 1, trees[i], name, seed)
    {
      ghost var log: seq<Tree>;
      left, log := StoppedShare(left, state, name, found, sizes, crashes[k], seed);
      trees, logs := trees + [left], logs + [log];
    }
    CandidatesStay(left, state, found, sizes, name, seed);
    disk := new Disk(left);
    ghost var again;
    ok, again := Share(disk, name, found, sizes);
    SameSeed(left, found, sizes, seed, again);
    CacheStepTwice(disk.root, left, state, name, seed);
    SharedStays(left, state, name, seed);
  }

  lemma NoStep(log: seq<Tree>, before: Tree, name: string, seed: Tree)
    ensures AllSteps(log, |log|, before, name, seed) && CacheStep(before, before, name, seed)
  {
  }

  lemma StepOf(log: seq<Tree>, k: nat, before: Tree, name: string, seed: Tree)
    requires k < |log| && log[0] == before && AllSteps(log, 1, before, name, seed)
    requires TopIsDir(before) && FileFree(before, name)
    ensures CacheStep(log[k], before, name, seed) && TopIsDir(log[k]) && FileFree(log[k], name)
  {
    hide Sub;
  }

  /** A step changes no candidate, so it does not change the choice. */
  lemma CandidatesStay(t: Tree, before: Tree, found: seq<Path>, sizes: seq<nat>, name: string, seed: Tree)
    requires Candidates(before, found, name) && CacheStep(t, before, name, seed)
    requires IsSeed(before, found, sizes, seed)
    ensures Candidates(t, found, name) && IsSeed(t, found, sizes, seed)
  {
    hide Sub, Apart;
    forall k | 0 <= k < |found|
      ensures Sub(t, found[k]) == Sub(before, found[k]) && found[k] in t && t[found[k]].Dir?
    {
      ThereNow(t, found[k]);
      ThereNow(before, found[k]);
    }
    if found != [] {
      var k: nat :| IsFullest(sizes, k) && seed == Sub(before, found[k]);
    }
  }

  lemma SameSeed(t: Tree, found: seq<Path>, sizes: seq<nat>, seed: Tree, again: Tree)
    requires IsSeed(t, found, sizes, seed) && IsSeed(t, found, sizes, again)
    ensures seed == again
  {
    hide Sub;
    if found != [] {
      var j: nat, k: nat :| IsFullest(sizes, j) && seed == Sub(t, found[j])
                            && IsFullest(sizes, k) && again == Sub(t, found[k]);
      assert sizes[j] <= sizes[k] && sizes[k] <= sizes[j];
    }
  }

  /** Steps of steps are steps. */
  lemma CacheStepTwice(t: Tree, mid: Tree, before: Tree, name: string, seed: Tree)
    requires CacheStep(t, mid, name, seed) && CacheStep(mid, before, name, seed)
    ensures CacheStep(t, before, name, seed)
  {
    hide Sub, Apart;
    ThereNow(mid, Shared(name));
    ThereNow(before, Shared(name));
  }

  lemma SharedStays(t: Tree, before: Tree, name: string, seed: Tree)
    requires CacheStep(t, before, name, seed)
    ensures Shared(name) in before ==> Shared(name) in t && Sub(t, Shared(name)) == Sub(before, Shared(name))
    ensures Shared(name) in t && Shared(name) !in before ==> Sub(t, Shared(name)) == seed
  {
    hide Sub, Apart;
    ThereNow(t, Shared(name));
    ThereNow(before, Shared(name));
  }

  lemma StepsMore(log: seq<Tree>, early: seq<Tree>, t: Tree, from: nat, before: Tree, name: string, seed: Tree)
    requires from <= |early| && AllSteps(early, from, before, name, seed)
    requires log == early || (log == early + [t] && StepAlone(t, before, name, seed))
    ensures AllSteps(log, from, before, name, seed)
  {
    hide CacheStep;
  }

  /** The whole of what is to be shared, at the pending place. */
  method Build(disk: Disk, name: string, source: Option<Path>) returns (ok: bool)
    requires disk.Valid() && TopIsDir(disk.root)
    requires source.Some? ==>
               source.value in disk.root && disk.root[source.value].Dir? && Apart(source.value, Pending(name))
    modifies disk
    ensures disk.Valid() && disk.Grown()
    ensures AllBeside(disk.log, old(|disk.log|), old(disk.root), Pending(name))
    ensures AllFree(disk.log, old(|disk.log|), name)
    ensures Beside(disk.root, old(disk.root), Pending(name)) && TopIsDir(disk.root)
    ensures ok ==> Sub(disk.root, Pending(name))
                   == if source.Some? then Sub(old(disk.root), source.value) else map[[] := Dir]
    ensures ok <==> disk.faults == old(disk.faults) && FileFree(old(disk.root), name)
  {
    hide Sub, Beside, AllBeside, AllFree, FileFree, Pending, Apart, Rooted;
    ghost var t0, from := disk.root, |disk.log|;
    ok := ClearPending(disk, name);
    if !ok {
      return;
    }
    ghost var t1, log1 := disk.root, disk.log;
    if source.Some? {
      SubBeside(t1, t0, Pending(name), source.value);
      RootedSub(t0, source.value);
      ThereNow(t0, source.value);
    }
    ok := Fill(disk, name, if source.Some? then Some(Sub(disk.root, source.value)) else None);
    BesideChain(disk.log, log1, from, t1, t0, Pending(name));
    FreeChain(disk.log, log1, from, name);
    BesideTwice(disk.root, t1, t0, Pending(name));
  }

  lemma FreeChain(log: seq<Tree>, early: seq<Tree>, from: nat, name: string)
    requires from <= |early| <= |log| && log[..|early|] == early
    requires AllFree(early, from, name) && AllFree(log, |early|, name)
    ensures AllFree(log, from, name)
  {
    hide TopIsDir, FileFree;
    forall i | from <= i < |early|
      ensures log[i] == early[i]
    {
      assert log[i] == log[..|early|][i];
    }
  }

  /** Which slot seeds the cache. */
  method Choose(state: Tree, found: seq<Path>, sizes: seq<nat>) returns (source: Option<Path>, ghost seed: Tree)
    requires |sizes| == |found|
    ensures IsSeed(state, found, sizes, seed)
    ensures source.Some? <==> found != []
    ensures source.Some? ==> source.value in found && seed == Sub(state, source.value)
    ensures source.None? ==> seed == map[[] := Dir]
  {
    if found == [] {
      return None, map[[] := Dir];
    }
    var k := Fullest(sizes);
    return Some(found[k]), Sub(state, found[k]);
  }

  lemma SeedHasTop(t: Tree, found: seq<Path>, sizes: seq<nat>, seed: Tree)
    requires IsSeed(t, found, sizes, seed) && forall k :: 0 <= k < |found| ==> found[k] in t
    ensures [] in seed
  {
    if found != [] {
      var k: nat :| IsFullest(sizes, k) && seed == Sub(t, found[k]);
      ThereNow(t, found[k]);
    }
  }

  lemma BesideIsAStep(log: seq<Tree>, from: nat, after: Tree, before: Tree, name: string, seed: Tree)
    requires AllBeside(log, from, before, Pending(name)) && Beside(after, before, Pending(name))
    requires AllFree(log, from, name)
    ensures AllSteps(log, from, before, name, seed)
    ensures CacheStep(after, before, name, seed) && Sub(after, Shared(name)) == Sub(before, Shared(name))
  {
    hide Sub;
    PlacesApart(name);
    forall t | Beside(t, before, Pending(name))
      ensures CacheStep(t, before, name, seed)
    {
    }
  }

  lemma CanShare(t: Tree, before: Tree, name: string, seed: Tree)
    requires TopIsDir(t) && Sub(t, Pending(name)) == seed && [] in seed
    requires Sub(t, Shared(name)) == Sub(before, Shared(name)) && Shared(name) !in before
    ensures CanRename(t, Pending(name), Shared(name))
  {
    PlacesApart(name);
    ThereNow(t, Pending(name));
    ThereNow(t, Shared(name));
    ThereNow(before, Shared(name));
    assert Shared(name)[..0] == [];
  }

  lemma SharedIsAStep(t: Tree, before: Tree, name: string, seed: Tree)
    requires CacheStep(t, before, name, seed) && Sub(t, Pending(name)) == seed && Shared(name) !in before
    requires TopIsDir(t)
    ensures StepAlone(Renamed(t, Pending(name), Shared(name)), before, name, seed)
    ensures Sub(Renamed(t, Pending(name), Shared(name)), Shared(name)) == seed
  {
    hide Sub, Renamed;
    var after := Renamed(t, Pending(name), Shared(name));
    PlacesApart(name);
    RenamedPlaces(t, Pending(name), Shared(name));
    forall r | Apart(r, Shared(name)) && Apart(r, Pending(name))
      ensures Sub(after, r) == Sub(before, r)
    {
      RenamedElsewhere(t, Pending(name), Shared(name), r);
    }
    ThereNow(after, Pending(name));
    TopRenamed(t, Pending(name), Shared(name));
  }
}
