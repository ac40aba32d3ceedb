/**
 The base directory of an offline provider and the updates of it (topolib/fs.go, topolib/fs_updater.go).
 Which system calls, downloads and opens fail is given by the environment of each call.
 */
module FsUpdaters {
  import opened Options
  import opened Checksum

  /** Entries of the base directory: `target_` and `tmp_` names, and anything else. */
  datatype Name = TargetName(suffix: seq<byte>) | TempName(id: nat) | OtherName(id: nat)

  /** A modification time of 0 is Go's zero time. */
  datatype Entry = PlainFile | Dir(tree: Tree, time: nat)

  type Disk = map<Name, Entry>

  /** `current`: the directory whose database the provider serves. A failing Open keeps it (topolib/interfaces.go). */
  datatype World = World(disk: Disk, current: Option<Name>)

  /** Whether reading the directory fails, and which entries cannot be removed. */
  datatype CleanupEnv = CleanupEnv(readFails: bool, stuck: set<Name>)

  datatype StartEnv = StartEnv(readFails: bool, cleanup: CleanupEnv, openFails: bool, wipe: CleanupEnv)

  /** `contents`: what Download leaves in the temporary directory, complete or not. */
  datatype UpdateEnv = UpdateEnv(
    tempFails: bool,
    temp: Name,
    downloadFails: bool,
    contents: Tree,
    checksumFails: bool,
    renameFails: bool,
    openFails: bool,
    cleanup: CleanupEnv,
    now: nat)

  predicate IsTarget(disk: Disk, n: Name) {
    n in disk && n.TargetName? && disk[n].Dir?
  }

  function Restrict(disk: Disk, keep: set<Name>): Disk {
    map n | n in disk && n in keep :: disk[n]
  }

  function Remove(disk: Disk, n: Name, stuck: set<Name>): Disk {
    if n in stuck then disk else disk - {n}
  }

  /** Cleanup keeps `save`; it fails on the first entry it cannot remove, and what it had not reached yet stays. */
  ghost predicate CleanupRel(disk: Disk, save: set<Name>, c: CleanupEnv, after: Disk, err: bool) {
    if c.readFails then err && after == disk
    else
      && (!err ==> after == Restrict(disk, save))
      && (err ==> exists n :: n in after && n !in save && n in c.stuck)
      && after.Keys <= disk.Keys
      && (forall n :: n in after ==> after[n] == disk[n])
      && (forall n :: n in disk && n in save ==> n in after)
  }

  function Target(tree: Tree): Name {
    TargetName(Frame(tree))
  }

  /** The disk when Promote is over and a new target has been current, before the final cleanup. */
  function Renamed(disk: Disk, temp: Name, target: Name): Disk
    requires temp in disk
  {
    (disk - {temp})[target := disk[temp]]
  }

  /** What doUpdate makes of the world. */
  ghost predicate UpdateRel(w: World, e: UpdateEnv, w': World, err: bool) {
    if e.tempFails then err && w' == w
    else
      var d1 := w.disk[e.temp := Dir(e.contents, e.now)];
      var target := Target(e.contents);
      if e.downloadFails || e.checksumFails || (target !in d1 && e.renameFails) then
        err && w' == World(Remove(d1, e.temp, e.cleanup.stuck), w.current)
      else if target !in d1 && e.openFails then
        err && w' == World(Remove(Remove(Renamed(d1, e.temp, target), target, e.cleanup.stuck), e.temp, e.cleanup.stuck),
                           w.current)
      else
        var d2 := if target in d1 then d1 else Renamed(d1, e.temp, target);
        && !err
        && w'.current == (if target in d1 then w.current else Some(target))
        && exists d3, ignored ::
            CleanupRel(d2, {target}, e.cleanup, d3, ignored) && w'.disk == Remove(d3, e.temp, e.cleanup.stuck)
  }

  // ----- the methods

  lemma FrameAppend(a: Tree, f: File)
    ensures Frame(a + [f]) == Frame(a) + Frame([f])
    decreases |a|
  {
    if a == [] {
      assert a + [f] == [f];
    } else {
      assert (a + [f])[1..] == a[1..] + [f];
      FrameAppend(a[1..], f);
      NamedAppend(a[0].path, a[0].contents, Frame(a[1..]), Frame([f]));
    }
  }

  lemma NamedAppend(p: seq<byte>, c: seq<byte>, r: seq<byte>, z: seq<byte>)
    ensures [0] + Named(p, c + (r + z)) == ([0] + Named(p, c + r)) + z
  {
    assert c + (r + z) == (c + r) + z;
  }

  /** The four writes of one file. */
  lemma FrameOne(before: seq<byte>, f: File)
    ensures before + [0] + f.path + [1] + f.contents == before + Frame([f])
  {
    assert Frame([f][1..]) == [] && f.contents + [] == f.contents;
    assert before + [0] + f.path + [1] + f.contents == before + ([0] + (f.path + ([1] + f.contents)));
  }

  /** The walk of `makeChecksum`: the hasher receives the frame of the tree. */
  method MakeChecksum(tree: Tree) returns (hashed: seq<byte>)
    ensures hashed == Frame(tree)
  {
    hashed := [];
    for i := 0 to |tree|
      invariant hashed == Frame(tree[..i])
    {
      ghost var before := hashed;
      hashed := hashed + [0];
      hashed := hashed + tree[i].path;
      hashed := hashed + [1];
      hashed := hashed + tree[i].contents;
      FrameAppend(tree[..i], tree[i]);
      assert tree[..i + 1] == tree[..i] + [tree[i]];
      FrameOne(before, tree[i]);
    }
    assert tree[..|tree|] == tree;
  }

  class FsUpdater {
    var disk: Disk
    var current: Option<Name>
    // the provider's `lastUpdated`; None is Go's zero time
    var lastUpdated: Option<nat>

    ghost function View(): World
      reads this
    {
      World(disk, current)
    }

    constructor (disk: Disk)
      ensures View() == World(disk, None) && lastUpdated.None?
    {
      this.disk, current, lastUpdated := disk, None, None;
    }

    /**
     The loop of `GetTargetDir`, entries in any order. It takes a target directory if there is one, the
     oldest one when none has a zero time.
     */
    method GetTargetDir() returns (target: Option<Name>, targetTime: nat)
      ensures target.None? <==> forall n :: !IsTarget(disk, n)
      ensures target.Some? ==> IsTarget(disk, target.value) && targetTime == disk[target.value].time
      ensures target.Some? ==> target.value.TargetName? && target.value in disk && disk[target.value].Dir?
      ensures target.None? ==> forall n :: n in disk && n.TargetName? ==> !IsTarget(disk, n) && disk[n].PlainFile?
      ensures target.Some? && (forall n :: IsTarget(disk, n) ==> disk[n].time > 0) ==>
        forall n :: IsTarget(disk, n) ==> targetTime <= disk[n].time
    {
      target, targetTime := None, 0;
      var rest := disk.Keys;
      while rest != {}
        invariant rest <= disk.Keys
        invariant target.None? <==> forall n :: IsTarget(disk, n) ==> n in rest
        invariant target.None? ==> targetTime == 0
        invariant target.Some? ==> IsTarget(disk, target.value) && targetTime == disk[target.value].time
        invariant target.Some? && (forall n :: IsTarget(disk, n) ==> disk[n].time > 0) ==>
          forall n :: IsTarget(disk, n) && n !in rest ==> targetTime <= disk[n].time
      {
        var n :| n in rest;
        rest := rest - {n};
        if n.TargetName? && disk[n].Dir? && (targetTime == 0 || disk[n].time < targetTime) {
          target, targetTime := Some(n), disk[n].time;
        }
      }
    }

    /** `Cleanup`: removes everything but `save`, in any order, up to the first failure. */
    method Cleanup(save: set<Name>, c: CleanupEnv) returns (err: bool)
      modifies this`disk
      ensures CleanupRel(old(disk), save, c, disk, err)
      ensures !c.readFails && c.stuck == {} ==> !err
      ensures c.readFails ==> err && disk == old(disk)
      ensures !err ==> disk.Keys == old(disk).Keys * save && forall n :: n in disk ==> disk[n] == old(disk)[n]
    {
      if c.readFails {
        return true;
      }
      var data := disk.Keys - save;
      while data != {}
        invariant data <= disk.Keys - save
        invariant disk.Keys <= old(disk).Keys
        invariant forall n :: n in disk ==> disk[n] == old(disk)[n]
        invariant forall n :: n in old(disk) && n in save ==> n in disk
        invariant forall n :: n in disk && n !in save ==> n in data
      {
        var n :| n in data;
        if n in c.stuck {
          return true;
        }
        data := data - {n};
        disk := disk - {n};
      }
      assert disk == Restrict(old(disk), save);
      return false;
    }

    /** `Promote`: the new target's name, and whether the directory was renamed to it. */
    method Promote(temp: Name, checksumFails: bool, renameFails: bool)
      returns (target: Option<Name>, needToReopen: bool, err: bool)
      requires temp.TempName? && temp in disk && disk[temp].Dir?
      modifies this`disk
      ensures err <==> checksumFails || (renameFails && Target(old(disk)[temp].tree) !in old(disk))
      ensures err ==> disk == old(disk)
      ensures !err ==> target == Some(Target(old(disk)[temp].tree))
      ensures !err ==> (needToReopen <==> Target(old(disk)[temp].tree) !in old(disk))
      ensures !err && !needToReopen ==> disk == old(disk)
      ensures !err && needToReopen ==> disk == Renamed(old(disk), temp, Target(old(disk)[temp].tree))
    {
      if checksumFails {
        return None, false, true;
      }
      var checksum := MakeChecksum(disk[temp].tree);
      var name := TargetName(checksum);
      if name in disk {
        return Some(name), false, false;
      }
      if renameFails {
        return None, false, true;
      }
      disk := (disk - {temp})[name := disk[temp]];
      return Some(name), true, false;
    }

    /** A Start that returns nil leaves the opened target alone on the disk, or nothing. */
    method Start(e: StartEnv) returns (err: bool)
      modifies this
      ensures e.readFails ==> err && View() == old(View())
      ensures err ==> current == old(current)
      ensures !err && !e.openFails && (exists n :: IsTarget(old(disk), n)) ==>
        && current.Some? && IsTarget(old(disk), current.value)
        && disk == map[current.value := old(disk)[current.value]]
        && lastUpdated == Some(disk[current.value].time)
        && ((forall n :: IsTarget(old(disk), n) ==> old(disk)[n].time > 0) ==>
              forall n :: IsTarget(old(disk), n) ==> disk[current.value].time <= old(disk)[n].time)
      ensures !err && (e.openFails || forall n :: !IsTarget(old(disk), n)) ==>
        disk == map[] && current == old(current)
      ensures !e.readFails && !e.cleanup.readFails && e.cleanup.stuck == {} && !e.wipe.readFails && e.wipe.stuck == {}
        ==> !err
      ensures e.cleanup.readFails ==> err
      ensures err ==> lastUpdated == old(lastUpdated)
      ensures !err && old(current).None? ==> Agreement(View())
    {
      if e.readFails {
        return true;
      }
      var target, time := GetTargetDir();
      err := Cleanup(if target.Some? then {target.value} else {}, e.cleanup);
      if err {
        return;
      }
      if target.Some? && !e.openFails {
        current, lastUpdated := target, Some(time);
        return;
      }
      err := Cleanup({}, e.wipe);
    }

    /** One update, seen from outside. */
    method DoUpdate(e: UpdateEnv) returns (err: bool)
      requires e.temp.TempName? && e.temp !in disk
      modifies this
      ensures UpdateRel(old(View()), e, View(), err)
      ensures Agreement(old(View())) && NoRemovalFails(e) ==>
        Agreement(View()) && (err ==> View() == old(View()))
      ensures lastUpdated == if err then old(lastUpdated) else Some(e.now)
      ensures err <==> UpdateFails(old(disk), e)
      ensures err ==> current == old(current)
      ensures !err ==> current == if Target(e.contents) in old(disk) then old(current) else Some(Target(e.contents))
      ensures NoRemovalFails(e) ==>
        disk == if err then old(disk) else map[Target(e.contents) := NewTarget(old(disk), e)]
    {
      err := Update(e);
      UpdateOutcome(old(View()), e, View(), err);
      if Agreement(old(View())) && NoRemovalFails(e) {
        UpdateKeepsAgreement(old(View()), e, View(), err);
      }
    }

    /** The statements of `doUpdate`, with the deferred removal of the temporary directory at every return. */
    method Update(e: UpdateEnv) returns (err: bool)
      requires e.temp.TempName? && e.temp !in disk
      modifies this
      ensures UpdateRel(old(View()), e, View(), err)
      ensures lastUpdated == if err then old(lastUpdated) else Some(e.now)
    {
      if e.tempFails {
        return true;
      }
      disk := disk[e.temp := Dir(e.contents, e.now)];
      ghost var d1 := disk;
      if e.downloadFails {
        disk := Remove(disk, e.temp, e.cleanup.stuck);
        return true;
      }
      var target, needToReopen;
      target, needToReopen, err := Promote(e.temp, e.checksumFails, e.renameFails);
      if err {
        disk := Remove(disk, e.temp, e.cleanup.stuck);
        return;
      }
      if needToReopen {
        if e.openFails {
          disk := Remove(disk, target.value, e.cleanup.stuck);
          disk := Remove(disk, e.temp, e.cleanup.stuck);
          return true;
        }
        current := target;
      }
      ghost var d := disk;
      var ignored := Cleanup({target.value}, e.cleanup);
      assert CleanupRel(d, {target.value}, e.cleanup, disk, ignored);
      disk := Remove(disk, e.temp, e.cleanup.stuck);
      lastUpdated := Some(e.now);
    }
  }

  // ----- what the disk and the open database have to do with each other

  /** Nothing on the disk and nothing open, or exactly one entry, which is the open one. */
  predicate Agreement(w: World) {
    || (w.disk == map[] && w.current.None?)
    || (w.current.Some? && w.disk.Keys == {w.current.value})
  }

  predicate NoRemovalFails(e: UpdateEnv) {
    !e.cleanup.readFails && e.cleanup.stuck == {}
  }

  predicate TempIsNew(w: World, e: UpdateEnv) {
    e.temp.TempName? && e.temp !in w.disk
  }

  /** The stages at which an update fails; one that finds its target on the disk neither renames nor opens. */
  predicate UpdateFails(disk: Disk, e: UpdateEnv) {
    || e.tempFails || e.downloadFails || e.checksumFails
    || (Target(e.contents) !in disk && (e.renameFails || e.openFails))
  }

  /** What stands under the checksum of the download afterwards: what stood there before, or the download. */
  function NewTarget(disk: Disk, e: UpdateEnv): Entry {
    if Target(e.contents) in disk then disk[Target(e.contents)] else Dir(e.contents, e.now)
  }

  /** The whole outcome of an update, from any world. */
  lemma UpdateOutcome(w: World, e: UpdateEnv, w': World, err: bool)
    requires TempIsNew(w, e) && UpdateRel(w, e, w', err)
    ensures err <==> UpdateFails(w.disk, e)
    ensures err ==> w'.current == w.current
    ensures !err ==> w'.current == if Target(e.contents) in w.disk then w.current else Some(Target(e.contents))
    ensures NoRemovalFails(e) && err ==> w'.disk == w.disk
    ensures NoRemovalFails(e) && !err ==> w'.disk == map[Target(e.contents) := NewTarget(w.disk, e)]
  {
    if !e.tempFails {
      var d1 := w.disk[e.temp := Dir(e.contents, e.now)];
      var target := Target(e.contents);
      assert d1 - {e.temp} == w.disk;
      if !err {
        var from := if target in d1 then d1 else Renamed(d1, e.temp, target);
        var d2, ignored :| CleanupRel(from, {target}, e.cleanup, d2, ignored)
          && w'.disk == Remove(d2, e.temp, e.cleanup.stuck);
        if NoRemovalFails(e) {
          CleanupDone(from, target, e.cleanup, d2, ignored);
          RemoveAbsent(d2, e.temp, e.cleanup.stuck);
        }
      } else if target !in d1 {
        assert Renamed(d1, e.temp, target) - {target} == w.disk;
        assert w.disk - {e.temp} == w.disk;
      }
    }
  }

  lemma RemoveAbsent(disk: Disk, n: Name, stuck: set<Name>)
    requires n !in disk
    ensures Remove(disk, n, stuck) == disk
  {
    assert disk - {n} == disk;
  }

  lemma CleanupDone(disk: Disk, keep: Name, c: CleanupEnv, after: Disk, err: bool)
    requires CleanupRel(disk, {keep}, c, after, err) && !c.readFails && c.stuck == {} && keep in disk
    ensures after == map[keep := disk[keep]]
  {
  }

  /**
   With removals that succeed, an update that fails at any stage leaves disk and database exactly as they
   were, and one that succeeds leaves the new target, open, and nothing else.
   */
  lemma UpdateKeepsAgreement(w: World, e: UpdateEnv, w': World, err: bool)
    requires Agreement(w) && TempIsNew(w, e) && NoRemovalFails(e) && UpdateRel(w, e, w', err)
    ensures Agreement(w')
    ensures err ==> w' == w
    ensures !err ==> w'.current == Some(Target(e.contents)) && w'.disk.Keys == {Target(e.contents)}
  {
    if !e.tempFails {
      var d1 := w.disk[e.temp := Dir(e.contents, e.now)];
      var target := Target(e.contents);
      assert d1 - {e.temp} == w.disk;
      if !err {
        var from := if target in d1 then d1 else Renamed(d1, e.temp, target);
        var d2, ignored :| CleanupRel(from, {target}, e.cleanup, d2, ignored)
          && w'.disk == Remove(d2, e.temp, e.cleanup.stuck);
        CleanupDone(from, target, e.cleanup, d2, ignored);
        RemoveAbsent(d2, e.temp, e.cleanup.stuck);
      } else if target !in d1 {
        assert Renamed(d1, e.temp, target) - {target} == w.disk;
        assert w.disk - {e.temp} == w.disk;
      }
    }
  }

  ghost predicate Updates(w: World, es: seq<UpdateEnv>, w': World)
    decreases |es|
  {
    if es == [] then w' == w
    else exists mid, err :: TempIsNew(w, es[0]) && UpdateRel(w, es[0], mid, err) && Updates(mid, es[1..], w')
  }

  /** So it is after any number of updates, each failing at any stage or not. */
  lemma {:induction false} UpdatesKeepAgreement(w: World, es: seq<UpdateEnv>, w': World)
    requires Agreement(w) && (forall e :: e in es ==> NoRemovalFails(e)) && Updates(w, es, w')
    ensures Agreement(w')
    decreases |es|
  {
    if es != [] {
      var mid, err :| TempIsNew(w, es[0]) && UpdateRel(w, es[0], mid, err) && Updates(mid, es[1..], w');
      assert es[0] in es;
      UpdateKeepsAgreement(w, es[0], mid, err);
      assert forall e :: e in es[1..] ==> e in es;
      UpdatesKeepAgreement(mid, es[1..], w');
    }
  }

  /**
   From any disk whatever, an update that returns nil with removals that succeed restores the agreement
   if and only if its target was not on the disk already, or is the one that is open.
   */
  lemma RestoresAgreementIff(w: World, e: UpdateEnv, w': World)
    requires TempIsNew(w, e) && NoRemovalFails(e) && UpdateRel(w, e, w', false)
    ensures Agreement(w') <==> (Target(e.contents) !in w.disk || w.current == Some(Target(e.contents)))
  {
    var d1 := w.disk[e.temp := Dir(e.contents, e.now)];
    var target := Target(e.contents);
    var from := if target in d1 then d1 else Renamed(d1, e.temp, target);
    var d2, ignored :| CleanupRel(from, {target}, e.cleanup, d2, ignored)
      && w'.disk == Remove(d2, e.temp, e.cleanup.stuck);
    CleanupDone(from, target, e.cleanup, d2, ignored);
    RemoveAbsent(d2, e.temp, e.cleanup.stuck);
    assert w'.disk.Keys == {target};
  }

  /**
   One failed removal is enough to lose the open database later: from an agreeing world, a first update
   succeeds but cannot remove the old target; a second one, with nothing failing, downloads the old contents
   again, keeps the old target without opening it, and removes the one that is open.
   */
  lemma OneFailedRemoval(a: Tree, b: Tree, t1: Name, t2: Name) returns (w: World, e1: UpdateEnv, mid: World, e2: UpdateEnv, w': World)
    requires Frame(a) != Frame(b) && t1.TempName? && t2.TempName? && t1 != t2
    ensures Agreement(w) && TempIsNew(w, e1) && UpdateRel(w, e1, mid, false)
    ensures TempIsNew(mid, e2) && NoRemovalFails(e2) && UpdateRel(mid, e2, w', false)
    ensures w'.current.Some? && w'.current.value !in w'.disk
  {
    var old_, new_ := Target(a), Target(b);
    w := World(map[old_ := Dir(a, 1)], Some(old_));
    e1 := UpdateEnv(false, t1, false, b, false, false, false, CleanupEnv(false, {old_}), 2);
    mid := World(map[old_ := Dir(a, 1), new_ := Dir(b, 2)], Some(new_));
    e2 := UpdateEnv(false, t2, false, a, false, false, false, CleanupEnv(false, {}), 3);
    w' := World(map[old_ := Dir(a, 1)], Some(new_));
    var d1 := w.disk[t1 := Dir(b, 2)];
    assert Renamed(d1, t1, new_) == mid.disk;
    assert CleanupRel(mid.disk, {new_}, e1.cleanup, mid.disk, true);
    assert mid.disk == Remove(mid.disk, t1, {old_});
    var d2 := mid.disk[t2 := Dir(a, 3)];
    assert CleanupRel(d2, {old_}, e2.cleanup, w'.disk, false);
    assert w'.disk == Remove(w'.disk, t2, {});
  }

  /** Directories whose checksums differ when they do. */
  ghost predicate ToldApart(a: Tree, b: Tree) {
    && Listing(a) && Listing(b)
    && (PinnedDown(b) || (CleanContents(a) && CleanContents(b)) || (|a| == 1 && |b| == 1))
  }

  lemma SameChecksum(a: Tree, b: Tree)
    requires ToldApart(a, b) && Frame(a) == Frame(b)
    ensures a == b
  {
    assert CleanPaths(a) && CleanPaths(b);
    if CleanContents(a) && CleanContents(b) {
      CleanInjective(a, b);
    } else if |a| == 1 && |b| == 1 {
      SingleFileInjective(a, b);
    }
  }

  /** Where a target bears its own checksum, a kept one holds what was downloaded, for directories the checksum tells apart. */
  lemma KeptTargetIsIdentical(disk: Disk, contents: Tree)
    requires IsTarget(disk, Target(contents)) && Target(disk[Target(contents)].tree) == Target(contents)
    requires ToldApart(disk[Target(contents)].tree, contents)
    ensures disk[Target(contents)].tree == contents
  {
    SameChecksum(disk[Target(contents)].tree, contents);
  }
}
