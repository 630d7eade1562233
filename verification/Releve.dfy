/** The cache of process names behind a reading of the machine
    (control/nel3ab_control/boite_noire/releve.py, Releveur._scanner). */
module Releve {
  import opened Common

  const RESCAN := 30.0

  /** The part a process plays, by the short name the kernel gives it. */
  function RoleOf(name: string): Option<string> {
    if name == "Ryujinx" then Some("switch")
    else if name == "dolphin-emu-nog" then Some("dolphin")
    else if name in ["nel3ab-worker", "nel3ab-wf-recor", "sway", "pulseaudio", "parec"] then Some(name)
    else None
  }

  /** A role is one name's, of the fifteen characters at most that the kernel keeps. */
  lemma OneNamePerRole(a: string, b: string)
    ensures RoleOf(a).Some? ==> |a| <= 15 && (RoleOf(a) == RoleOf(b) ==> a == b)
  {
  }

  /** What a scan finds: the time, and each process listed with the name it has then,
      empty when it cannot be read. */
  datatype Look = Look(now: real, names: map<nat, string>)

  datatype Cache = Cache(roles: map<nat, Option<string>>, last: Option<real>)

  predicate Everything(c: Cache, now: real) {
    c.last.None? || now - c.last.value >= RESCAN
  }

  function Scanned(c: Cache, look: Look): Cache {
    var all := Everything(c, look.now);
    Cache(map p | p in look.names :: if all || p !in c.roles then RoleOf(look.names[p]) else c.roles[p],
          if all then Some(look.now) else c.last)
  }

  /** The processes of interest, with their role. */
  function Interesting(roles: map<nat, Option<string>>): map<nat, string> {
    map p | p in roles && roles[p].Some? :: roles[p].value
  }

  /** What a scan that reads every name answers. */
  function Rescan(look: Look): map<nat, string> {
    Interesting(map p | p in look.names :: RoleOf(look.names[p]))
  }

  function After(looks: seq<Look>): Cache {
    if looks == [] then Cache(map[], None) else Scanned(After(looks[..|looks| - 1]), looks[|looks| - 1])
  }

  // ---- what the cache holds --------------------------------------------------

  ghost predicate Monotone(looks: seq<Look>) {
    forall i, j :: 0 <= i < j < |looks| ==> looks[i].now <= looks[j].now
  }

  ghost predicate ListedSince(looks: seq<Look>, p: nat, r: nat) {
    forall i :: r <= i < |looks| ==> p in looks[i].names
  }

  /** The role of a process was read at one of the looks, and the process has been
      listed at every look since. */
  ghost predicate ReadAt(looks: seq<Look>, p: nat, r: nat) {
    && r < |looks| && ListedSince(looks, p, r) && p in looks[r].names
    && p in After(looks).roles && After(looks).roles[p] == RoleOf(looks[r].names[p])
    && After(looks).last.Some? && After(looks).last.value <= looks[r].now
  }

  lemma AfterMore(looks: seq<Look>, look: Look)
    ensures After(looks + [look]) == Scanned(After(looks), look)
  {
    assert (looks + [look])[..|looks|] == looks;
  }

  lemma ListedMore(looks: seq<Look>, look: Look, p: nat, r: nat)
    requires p in look.names && r <= |looks| && ListedSince(looks, p, r)
    ensures ListedSince(looks + [look], p, r)
  {
  }

  /** A scan that reads every name reads this one; so does one that sees it for the
      first time; any other keeps when it was read. */
  lemma OneMoreLook(looks: seq<Look>, look: Look, p: nat, r: nat)
    requires p in look.names
    requires p in After(looks).roles ==> ReadAt(looks, p, r)
    requires After(looks).last.Some? ==> After(looks).last.value <= look.now
    ensures ReadAt(looks + [look], p,
              if Everything(After(looks), look.now) || p !in After(looks).roles then |looks| else r)
  {
    hide After, ListedSince, RoleOf;
    AfterMore(looks, look);
    var more, c := looks + [look], After(looks);
    assert more[|looks|] == look;
    if Everything(c, look.now) || p !in c.roles {
      NoneSince(looks, p);
      ListedMore(looks, look, p, |looks|);
    } else {
      assert more[r] == looks[r];
      ListedMore(looks, look, p, r);
    }
  }

  lemma NoneSince(looks: seq<Look>, p: nat)
    ensures ListedSince(looks, p, |looks|)
  {
  }

  /** After every scan the cache has exactly the processes listed, and each role comes
      from a name read less than thirty seconds before. */
  lemma {:induction false} EveryRoleIsRecent(looks: seq<Look>)
    requires looks != [] && Monotone(looks)
    ensures After(looks).roles.Keys == looks[|looks| - 1].names.Keys
    ensures After(looks).last.Some? && After(looks).last.value <= looks[|looks| - 1].now
    ensures looks[|looks| - 1].now - After(looks).last.value < RESCAN
    ensures forall p :: p in After(looks).roles ==> exists r :: ReadAt(looks, p, r)
  {
    hide ReadAt, Everything, RoleOf, After, Monotone, Scanned;
    var early, look := looks[..|looks| - 1], looks[|looks| - 1];
    assert looks == early + [look];
    MonotoneEarly(early, look);
    AfterMore(early, look);
    if early == [] {
      NothingListed();
    } else {
      EveryRoleIsRecent(early);
    }
    ScanIsRecent(After(early), look);
    forall p | p in look.names
      ensures exists r :: ReadAt(looks, p, r)
    {
      var r: nat := 0;
      if p in After(early).roles {
        r :| ReadAt(early, p, r);
      }
      OneMoreLook(early, look, p, r);
    }
  }

  lemma MonotoneEarly(early: seq<Look>, look: Look)
    requires Monotone(early + [look])
    ensures Monotone(early) && (early != [] ==> early[|early| - 1].now <= look.now)
  {
    var looks := early + [look];
    assert forall i :: 0 <= i < |early| ==> looks[i] == early[i];
    assert looks[|early|] == look;
  }

  lemma NothingListed()
    ensures After([]) == Cache(map[], None)
  {
  }

  lemma ScanIsRecent(c: Cache, look: Look)
    requires c.last.Some? ==> c.last.value <= look.now
    ensures Scanned(c, look).roles.Keys == look.names.Keys && Scanned(c, look).last.Some?
    ensures Scanned(c, look).last.value <= look.now && look.now - Scanned(c, look).last.value < RESCAN
  {
  }

  /** No process listed twice in a row changes its name in between: no `exec`, and no
      number used again before a scan has missed it. */
  ghost predicate Stable(looks: seq<Look>) {
    forall i, p :: 0 < i < |looks| && p in looks[i].names && p in looks[i - 1].names ==>
        looks[i].names[p] == looks[i - 1].names[p]
  }

  /** With stable names, every cached scan answers what a full rescan would. */
  lemma {:induction false} CacheIsARescan(looks: seq<Look>)
    requires looks != [] && Stable(looks)
    ensures Interesting(After(looks).roles) == Rescan(looks[|looks| - 1])
    ensures forall p :: p in After(looks).roles <==> p in looks[|looks| - 1].names
    ensures forall p :: p in After(looks).roles ==> After(looks).roles[p] == RoleOf(looks[|looks| - 1].names[p])
  {
    var early, look := looks[..|looks| - 1], looks[|looks| - 1];
    if early != [] {
      CacheIsARescan(early);
      assert early[|early| - 1] == looks[|looks| - 2];
    } else {
      assert After(early) == Cache(map[], None);
    }
    assert After(looks).roles == map p | p in look.names :: RoleOf(look.names[p]);
  }

  /** The processes that start between two full scans of the names cost one read each, and the
      others none: a role moves only once thirty seconds have gone by since the last one. */
  lemma NamesAreKept(looks: seq<Look>, look: Look, p: nat)
    requires After(looks).last.Some?
    ensures var before, after := After(looks), After(looks + [look]);
            var elapsed := look.now - before.last.value;
            && (elapsed < 30.0 ==>
                  after.last == before.last
                  && (p in look.names && p in before.roles ==> after.roles[p] == before.roles[p]))
            && (elapsed >= 30.0 ==>
                  after.last == Some(look.now) && (p in look.names ==> after.roles[p] == RoleOf(look.names[p])))
  {
    AfterMore(looks, look);
  }

  // ---- the reader ------------------------------------------------------------

  /** The roles on the way through a scan, some names still to be looked at. */
  function ReadSome(c: Cache, look: Look, left: set<nat>): map<nat, Option<string>> {
    map p | p in look.names && (p !in left || p in c.roles) ::
      if p in left then c.roles[p] else Scanned(c, look).roles[p]
  }

  lemma ReadNone(c: Cache, look: Look)
    ensures ReadSome(c, look, look.names.Keys) == map p | p in c.roles && p in look.names.Keys :: c.roles[p]
  {
  }

  lemma ReadOne(c: Cache, look: Look, left: set<nat>, p: nat)
    requires p in left && left <= look.names.Keys
    ensures var roles := ReadSome(c, look, left);
            && (p in roles <==> p in c.roles)
            && ReadSome(c, look, left - {p})
               == if Everything(c, look.now) || p !in roles then roles[p := RoleOf(look.names[p])] else roles
  {
  }

  lemma ReadAll(c: Cache, look: Look)
    ensures ReadSome(c, look, {}) == Scanned(c, look).roles
  {
  }

  class Releveur {
    var roles: map<nat, Option<string>>
    var last: Option<real>

    ghost function Kept(): Cache
      reads this
    {
      Cache(roles, last)
    }

    constructor ()
      ensures Kept() == After([])
    {
      roles, last := map[], None;
    }

    /** The roles of the processes of interest. When the processes cannot be listed the
        answer is empty and the cache stays as it was. */
    method Scan(look: Option<Look>) returns (answer: map<nat, string>)
      modifies this
      ensures look.None? ==> answer == map[] && Kept() == old(Kept())
      ensures look.Some? ==> Kept() == Scanned(old(Kept()), look.value) && answer == Interesting(roles)
    {
      hide ReadSome, RoleOf;
      if look.None? {
        return map[];
      }
      var names, now := look.value.names, look.value.now;
      var all := last.None? || now - last.value >= RESCAN;
      ghost var before := Kept();
      if all {
        last := Some(now);
      }
      Forget(names.Keys);
      ReadNone(before, look.value);
      var left := names.Keys;
      while left != {}
        invariant left <= names.Keys && last == Scanned(before, look.value).last
        invariant roles == ReadSome(before, look.value, left)
        decreases |left|
      {
        var p :| p in left;
        ReadOne(before, look.value, left, p);
        if all || p !in roles {
          roles := roles[p := RoleOf(names[p])];
        }
        left := left - {p};
      }
      ReadAll(before, look.value);
      return Interesting(roles);
    }

    /** Drops the processes that are gone. */
    method Forget(pids: set<nat>)
      modifies `roles
      ensures roles == map p | p in old(roles) && p in pids :: old(roles)[p]
    {
      var gone := roles.Keys - pids;
      while gone != {}
        invariant gone <= old(roles).Keys - pids
        invariant roles == map p | p in old(roles) && (p in pids || p in gone) :: old(roles)[p]
        decreases |gone|
      {
        var p :| p in gone;
        roles := roles - {p};
        gone := gone - {p};
      }
    }
  }
}
