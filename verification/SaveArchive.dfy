/** Which files of a downloaded archive go where inside a save bank, and which
    container they are for (docker/switch-saves.py, chosen and account_container). */
module SaveArchive {
  import opened Common
  import opened FileTree

  // ---- path segments ---------------------------------------------------------

  /** The text cut at every slash; always at least one part. */
  function Split(s: string): (parts: seq<string>)
    ensures parts != []
  {
    if s == [] then [""]
    else
      var rest := Split(s[1..]);
      if s[0] == '/' then [""] + rest else [[s[0]] + rest[0]] + rest[1..]
  }

  lemma SplitFirst(c: char, rest: string)
    ensures Split([c] + rest)
            == if c == '/' then [""] + Split(rest) else [[c] + Split(rest)[0]] + Split(rest)[1..]
  {
    assert ([c] + rest)[1..] == rest;
  }

  lemma {:induction false} SplitAtSlash(a: string, b: string)
    ensures Split(a + "/" + b) == Split(a) + Split(b)
  {
    if a == [] {
      assert a + "/" + b == ['/'] + b;
      SplitFirst('/', b);
    } else {
      var c, rest := a[0], a[1..];
      assert a == [c] + rest && a + "/" + b == [c] + (rest + "/" + b);
      hide Split;
      SplitAtSlash(rest, b);
      SplitFirst(c, rest);
      SplitFirst(c, rest + "/" + b);
      SplitGlue(c, Split(rest), Split(b));
    }
  }

  lemma SplitGlue(c: char, first: seq<string>, second: seq<string>)
    requires first != []
    ensures [""] + (first + second) == ([""] + first) + second
    ensures [[c] + (first + second)[0]] + (first + second)[1..] == ([[c] + first[0]] + first[1..]) + second
  {
    assert (first + second)[0] == first[0] && (first + second)[1..] == first[1..] + second;
  }

  lemma {:induction false} PartsHaveNoSlash(s: string, i: nat)
    requires i < |Split(s)|
    ensures '/' !in Split(s)[i]
  {
    if s != [] {
      var rest := Split(s[1..]);
      if s[0] == '/' {
        if i > 0 {
          PartsHaveNoSlash(s[1..], i - 1);
        }
      } else {
        PartsHaveNoSlash(s[1..], i);
        if i > 0 {
          assert ([[s[0]] + rest[0]] + rest[1..])[i] == rest[i];
        }
      }
    }
  }

  predicate PlainSegment(part: string) {
    part != "" && part != "." && part != ".."
  }

  /** A relative path that cannot leave where it is put. */
  ghost predicate Plain(path: Path) {
    path != [] && forall i :: 0 <= i < |path| ==> PlainSegment(path[i]) && '/' !in path[i]
  }

  /** Walking a relative path from a directory, as a system resolves it. */
  function Walked(base: Path, path: Path): Path
    decreases |path|
  {
    if path == [] then base
    else if path[0] == "" || path[0] == "." then Walked(base, path[1..])
    else if path[0] == ".." then Walked(if base == [] then [] else base[..|base| - 1], path[1..])
    else Walked(base + [path[0]], path[1..])
  }

  /** A plain path stays strictly inside the directory it is put in. */
  lemma {:induction false} PlainStaysInside(base: Path, path: Path)
    requires Plain(path)
    ensures Walked(base, path) == base + path && base < Walked(base, path)
    decreases |path|
  {
    assert PlainSegment(path[0]);
    if |path| == 1 {
      assert path[1..] == [] && base + path == base + [path[0]];
    } else {
      assert forall i :: 0 <= i < |path[1..]| ==> path[1..][i] == path[i + 1];
      PlainStaysInside(base + [path[0]], path[1..]);
      assert base + [path[0]] + path[1..] == base + path;
    }
  }

  // ---- the rule of a game ----------------------------------------------------

  datatype Rule = Files(names: seq<string>) | Under(folder: string)

  /** Names are distinct plain segments, at least one; a folder ends with a slash. */
  ghost predicate GoodRule(rule: Rule) {
    match rule
    case Files(names) =>
      && names != []
      && (forall i :: 0 <= i < |names| ==> PlainSegment(names[i]) && '/' !in names[i])
      && (forall i, j :: 0 <= i < j < |names| ==> names[i] != names[j])
    case Under(folder) => folder != "" && folder[|folder| - 1] == '/'
  }

  /** The games whose saves were checked. */
  function RuleOf(title: string): Option<Rule> {
    if title == "0100bde00862a000" then Some(Files(["save.dat", "save7.dat"]))
    else if title == "0100152000022000" then Some(Files(["userdata.dat"]))
    else if title == "01006fe013472000" then Some(Files(["hs_save_data"]))
    else if title == "0100965017338000" then Some(Files(["bqSaveData", "bqSaveData2"]))
    else if title == "01006a800016e000" then Some(Under("__user__/"))
    else None
  }

  lemma RulesAreGood(title: string)
    requires RuleOf(title).Some?
    ensures GoodRule(RuleOf(title).value)
  {
    assert |"save.dat"| == 8 && |"save7.dat"| == 9 && |"bqSaveData"| == 10 && |"bqSaveData2"| == 11;
  }

  /** Five games and no other: which files of each are its progression, all that is under one
      folder for the last. */
  lemma TheFiveGames(title: string, rule: Rule)
    ensures RuleOf(title) == Some(rule)
            <==> (title, rule) in {("0100bde00862a000", Files(["save.dat", "save7.dat"])),
                                   ("0100152000022000", Files(["userdata.dat"])),
                                   ("01006fe013472000", Files(["hs_save_data"])),
                                   ("0100965017338000", Files(["bqSaveData", "bqSaveData2"])),
                                   ("01006a800016e000", Under("__user__/"))}
  {
  }

  // ---- choosing --------------------------------------------------------------

  datatype Refusal = OutsideTheSave | NotExactlyOnce(name: string) | NothingUnder(folder: string)

  predicate IsDirectory(filename: string) {
    filename != "" && filename[|filename| - 1] == '/'
  }

  ghost predicate PlainParts(filename: string) {
    '\\' !in filename && forall i :: 0 <= i < |Split(filename)| ==> PlainSegment(Split(filename)[i])
  }

  function LastPart(filename: string): string {
    var parts := Split(filename);
    parts[|parts| - 1]
  }

  function Rest(rule: Rule, filename: string): Path
    requires rule.Under? && rule.folder <= filename
  {
    Split(filename[|rule.folder|..])
  }

  /** Where each accepted entry of the archive goes inside a save bank, by the index of the
      entry: no file of the archive could leave its folder, every destination is plain, and
      it is either each named file, found exactly once, or every file under the folder, the
      last of those that go to the same place. */
  ghost predicate Picks(rule: Rule, archive: seq<string>, picked: map<Path, nat>) {
    && (forall i :: 0 <= i < |archive| && !IsDirectory(archive[i]) ==> PlainParts(archive[i]))
    && (forall k :: k in picked ==> Plain(k) && picked[k] < |archive| && !IsDirectory(archive[picked[k]]))
    && (rule.Files? ==>
          && picked.Keys == (set name | name in rule.names :: [name])
          && forall name :: name in rule.names ==> OnlyOne(archive, name, picked[[name]]))
    && (rule.Under? ==>
          && picked != map[]
          && (forall i :: 0 <= i < |archive| && !IsDirectory(archive[i]) && rule.folder <= archive[i] ==>
                Rest(rule, archive[i]) in picked)
          && (forall k :: k in picked ==>
                && rule.folder <= archive[picked[k]] && k == Rest(rule, archive[picked[k]])
                && LastAt(rule.folder, archive, picked[k], |archive|)))
  }

  /** Why an archive is refused. */
  ghost predicate Refuses(rule: Rule, archive: seq<string>, why: Refusal) {
    match why
    case OutsideTheSave => exists i :: 0 <= i < |archive| && !IsDirectory(archive[i]) && !PlainParts(archive[i])
    case NotExactlyOnce(name) => rule.Files? && name in rule.names && !exists i :: OnlyOne(archive, name, i)
    case NothingUnder(folder) =>
      rule == Under(folder) && forall i :: 0 <= i < |archive| && !IsDirectory(archive[i]) ==> !(folder <= archive[i])
  }

  /** An archive that is refused has no choice, and one that is not has only one. */
  lemma PicksIsUnique(rule: Rule, archive: seq<string>, picked: map<Path, nat>)
    requires Picks(rule, archive, picked)
    ensures forall other :: Picks(rule, archive, other) ==> other == picked
    ensures forall why :: !Refuses(rule, archive, why)
  {
    hide Split, PlainParts, Plain, IsDirectory;
    forall other | Picks(rule, archive, other)
      ensures other == picked
    {
      if rule.Under? {
        forall k
          ensures k in other <==> k in picked
        {
          assert k in other ==> Rest(rule, archive[other[k]]) in picked;
          assert k in picked ==> Rest(rule, archive[picked[k]]) in other;
        }
        forall k | k in picked
          ensures other[k] == picked[k]
        {
          assert !(other[k] < picked[k]) && !(picked[k] < other[k]);
        }
      }
    }
    if rule.Under? {
      var k :| k in picked;
      assert rule.folder <= archive[picked[k]];
    }
  }

  /** Which entry goes where; an archive with a single file outside is refused as a
      whole. */
  method Chosen(rule: Rule, archive: seq<string>) returns (r: Result<map<Path, nat>, Refusal>)
    requires GoodRule(rule)
    ensures r.Ok? ==> Picks(rule, archive, r.value)
    ensures r.Err? ==> Refuses(rule, archive, r.error)
    ensures r == Err(OutsideTheSave) <==> Refuses(rule, archive, OutsideTheSave)
  {
    var refused := AnyOutside(archive);
    if refused {
      return Err(OutsideTheSave);
    }
    match rule
    case Files(names) => r := ChosenByName(names, archive);
    case Under(folder) => r := ChosenUnder(folder, archive);
  }

  /** One file entry of that name in the whole archive, and where it is. */
  ghost predicate OnlyOne(archive: seq<string>, name: string, i: nat) {
    && i < |archive| && !IsDirectory(archive[i]) && LastPart(archive[i]) == name
    && forall j :: 0 <= j < |archive| && !IsDirectory(archive[j]) && LastPart(archive[j]) == name ==> j == i
  }

  method AnyOutside(archive: seq<string>) returns (refused: bool)
    ensures refused <==> exists i :: 0 <= i < |archive| && !IsDirectory(archive[i]) && !PlainParts(archive[i])
  {
    var i := 0;
    while i < |archive|
      invariant 0 <= i <= |archive|
      invariant forall k :: 0 <= k < i && !IsDirectory(archive[k]) ==> PlainParts(archive[k])
    {
      if !IsDirectory(archive[i]) {
        if '\\' in archive[i] {
          return true;
        }
        var parts := Split(archive[i]);
        var k := 0;
        while k < |parts|
          invariant 0 <= k <= |parts|
          invariant forall j :: 0 <= j < k ==> PlainSegment(parts[j])
        {
          if !PlainSegment(parts[k]) {
            return true;
          }
          k := k + 1;
        }
      }
      i := i + 1;
    }
    return false;
  }

  method ChosenByName(names: seq<string>, archive: seq<string>) returns (r: Result<map<Path, nat>, Refusal>)
    requires GoodRule(Files(names))
    ensures r.Ok? ==>
              && r.value.Keys == (set name | name in names :: [name])
              && (forall name :: name in names ==> OnlyOne(archive, name, r.value[[name]]))
              && (forall k :: k in r.value ==> Plain(k) && r.value[k] < |archive|
                                               && !IsDirectory(archive[r.value[k]]))
    ensures r.Err? ==> exists name :: name in names && r.error == NotExactlyOnce(name)
                                      && !exists i :: OnlyOne(archive, name, i)
  {
    var picked: map<Path, nat> := map[];
    var n := 0;
    while n < |names|
      invariant 0 <= n <= |names|
      invariant picked.Keys == set name | name in names[..n] :: [name]
      invariant forall name :: name in names[..n] ==> OnlyOne(archive, name, picked[[name]])
    {
      var where := Matches(names[n], archive);
      if where.None? {
        return Err(NotExactlyOnce(names[n]));
      }
      assert names[..n + 1] == names[..n] + [names[n]];
      picked := picked[[names[n]] := where.value];
      n := n + 1;
    }
    assert names[..n] == names;
    return Ok(picked);
  }

  /** The one file entry of that name, if there is exactly one. */
  method Matches(name: string, archive: seq<string>) returns (where: Option<nat>)
    ensures where.Some? ==> OnlyOne(archive, name, where.value)
    ensures where.None? ==> !exists i :: OnlyOne(archive, name, i)
  {
    var found: seq<nat> := [];
    var i: nat := 0;
    while i < |archive|
      invariant i <= |archive|
      invariant forall k: nat :: k in found <==> k < i && !IsDirectory(archive[k]) && LastPart(archive[k]) == name
      invariant forall a :: 0 <= a < |found| ==> found[a] < i
      invariant forall a, b :: 0 <= a < b < |found| ==> found[a] < found[b]
    {
      if !IsDirectory(archive[i]) && LastPart(archive[i]) == name {
        found := found + [i];
      }
      i := i + 1;
    }
    if |found| != 1 {
      if |found| > 1 {
        assert found[0] in found && found[1] in found;
      }
      return None;
    }
    assert found[0] in found;
    return Some(found[0]);
  }

  /** Of the entries that go to the same place, the last one counts. */
  ghost predicate LastAt(folder: string, archive: seq<string>, i: nat, n: nat)
    requires i < |archive| && n <= |archive| && folder <= archive[i]
  {
    forall j :: i < j < n && !IsDirectory(archive[j]) && folder <= archive[j] ==>
        Rest(Under(folder), archive[j]) != Rest(Under(folder), archive[i])
  }

  method ChosenUnder(folder: string, archive: seq<string>) returns (r: Result<map<Path, nat>, Refusal>)
    requires GoodRule(Under(folder))
    requires forall i :: 0 <= i < |archive| && !IsDirectory(archive[i]) ==> PlainParts(archive[i])
    ensures r.Ok? ==>
              && r.value != map[]
              && (forall i :: 0 <= i < |archive| && !IsDirectory(archive[i]) && folder <= archive[i] ==>
                    Rest(Under(folder), archive[i]) in r.value)
              && (forall k :: k in r.value ==>
                    && r.value[k] < |archive| && !IsDirectory(archive[r.value[k]]) && Plain(k)
                    && folder <= archive[r.value[k]] && k == Rest(Under(folder), archive[r.value[k]])
                    && LastAt(folder, archive, r.value[k], |archive|))
    ensures r.Err? ==>
              r.error == NothingUnder(folder)
              && forall i :: 0 <= i < |archive| && !IsDirectory(archive[i]) ==> !(folder <= archive[i])
  {
    var picked: map<Path, nat> := map[];
    var i := 0;
    while i < |archive|
      invariant 0 <= i <= |archive|
      invariant forall n :: 0 <= n < i && !IsDirectory(archive[n]) && folder <= archive[n] ==>
          Rest(Under(folder), archive[n]) in picked
      invariant forall k :: k in picked ==>
          && picked[k] < i && !IsDirectory(archive[picked[k]]) && Plain(k)
          && folder <= archive[picked[k]] && k == Rest(Under(folder), archive[picked[k]])
          && LastAt(folder, archive, picked[k], i)
    {
      if !IsDirectory(archive[i]) && folder <= archive[i] {
        RestIsPlain(folder, archive[i]);
        picked := picked[Split(archive[i][|folder|..]) := i];
      }
      i := i + 1;
    }
    if picked == map[] {
      return Err(NothingUnder(folder));
    }
    return Ok(picked);
  }

  lemma RestIsPlain(folder: string, filename: string)
    requires GoodRule(Under(folder)) && folder <= filename && PlainParts(filename)
    ensures Plain(Rest(Under(folder), filename))
  {
    var above, rest := folder[..|folder| - 1], filename[|folder|..];
    assert filename == above + "/" + rest;
    SplitAtSlash(above, rest);
    var parts := Split(filename);
    forall i | 0 <= i < |Split(rest)|
      ensures PlainSegment(Split(rest)[i]) && '/' !in Split(rest)[i]
    {
      assert parts[|Split(above)| + i] == Split(rest)[i];
      PartsHaveNoSlash(rest, i);
    }
  }

  // ---- the container ---------------------------------------------------------

  /** A directory entry under the save folder, with the owner record beside it. */
  datatype Container = Container(name: string, isDirectory: bool, extra: Option<seq<Byte>>)

  const ACCOUNT: Byte := 1
  const HEAD := 0x21

  /** A user's own save of a program: the program at the start, the type at 0x20. */
  predicate Owned(c: Container, title: nat) {
    && c.isDirectory && c.extra.Some?
    && |c.extra.value| >= HEAD
    && FromLE(c.extra.value[..8]) == title
    && c.extra.value[0x20] == ACCOUNT
  }

  /** What its owner record is: the program in eight bytes, twenty-four that do not matter, the
      mark of a user's save, and anything after. */
  lemma OwnedIff(c: Container, title: nat)
    requires title < Pow256(8)
    ensures Owned(c, title)
            <==> c.isDirectory
                 && exists middle, after :: |middle| == 24
                                            && c.extra == Some(ToLE(title, 8) + middle + [1] + after)
  {
    FromToLE(title, 8);
    if Owned(c, title) {
      var extra := c.extra.value;
      ToFromLE(extra[..8]);
      assert extra == extra[..8] + extra[8..0x20] + [extra[0x20]] + extra[0x21..];
    }
    forall middle: seq<Byte>, after: seq<Byte>
        | |middle| == 24 && c.extra == Some(ToLE(title, 8) + middle + [1] + after)
      ensures c.extra.value[..8] == ToLE(title, 8) && c.extra.value[0x20] == 1 && |c.extra.value| >= 0x21
    {
    }
  }

  /** The game's own save container; none when there is not exactly one. */
  method AccountContainer(containers: seq<Container>, title: nat) returns (r: Option<string>)
    ensures r.Some? ==> exists i :: 0 <= i < |containers| && containers[i].name == r.value
                          && forall j :: 0 <= j < |containers| ==> (Owned(containers[j], title) <==> j == i)
    ensures r.None? ==> forall i :: 0 <= i < |containers| && Owned(containers[i], title) ==>
                          exists j :: 0 <= j < |containers| && j != i && Owned(containers[j], title)
  {
    hide Owned;
    var found: seq<nat> := [];
    var i: nat := 0;
    while i < |containers|
      invariant i <= |containers|
      invariant forall k: nat :: k in found <==> k < i && Owned(containers[k], title)
      invariant forall a :: 0 <= a < |found| ==> found[a] < i
      invariant forall a, b :: 0 <= a < b < |found| ==> found[a] < found[b]
    {
      if Owned(containers[i], title) {
        found := found + [i];
      }
      i := i + 1;
    }
    if |found| != 1 {
      forall n | 0 <= n < |containers| && Owned(containers[n], title)
        ensures exists j :: 0 <= j < |containers| && j != n && Owned(containers[j], title)
      {
        assert n in found;
        var other := if found[0] == n then found[1] else found[0];
        assert other in found;
      }
      return None;
    }
    assert found[0] in found;
    return Some(containers[found[0]].name);
  }
}
