/**
 The life of a base directory over many runs of the process, one file-system step at a time. Every step may
 fail, and the process may crash between any two. A rename and the removal of one entry are atomic.
 */
module CrashSafety {
  import opened Options
  import opened Checksum
  import opened FsUpdaters

  /** Where the process is in `Start` (the Boot stages) or in `doUpdate`. */
  datatype Stage =
    | Down
    | Boot
    | BootClean(keep: Option<Name>)
    | BootOpen(target: Name)
    | BootWipe
    | Ready
    | Fetching(temp: Name)
    | Fetched(temp: Name)
    | Promoted(target: Name, temp: Name, reopen: bool)
    | Rejecting(target: Name, temp: Name)
    | Sweeping(target: Name, temp: Name)
    | Dropping(temp: Name)

  /** A call of Open: the directory, and its contents at that moment. */
  datatype Opening = Opening(name: Name, entry: Entry)

  /**
   `first`: the disk before the system ever ran. `complete`: the contents of temporary directories when their
   Download returned nil. `openings`: every call of Open made so far, failed ones included.
   */
  datatype Machine = Machine(
    first: Disk,
    disk: Disk,
    current: Option<Name>,
    stage: Stage,
    complete: set<Tree>,
    openings: seq<Opening>)

  datatype Step =
    | Crash
    | Launch
    | FindTarget(target: Option<Name>)
    | RemoveEntry(n: Name)
    | CleanDone
    | CleanFails
    | OpenReturns(ok: bool)
    | MakeTemp(temp: Name, time: nat)
    | Write(tree: Tree, time: nat)
    | DownloadReturns(ok: bool)
    | Promote(ok: bool)
    | Finish(removed: bool)

  function Opened(m: Machine, n: Name, ok: bool, next: Stage, otherwise: Stage): Machine
    requires n in m.disk
  {
    m.(openings := m.openings + [Opening(n, m.disk[n])],
       current := if ok then Some(n) else m.current,
       stage := if ok then next else otherwise)
  }

  predicate MayRemove(stage: Stage, n: Name) {
    match stage
    case BootClean(keep) => keep != Some(n)
    case BootWipe => true
    case Sweeping(target, _) => n != target
    case _ => false
  }

  /** One step; None when it cannot be taken. */
  function Next(m: Machine, s: Step): Option<Machine> {
    match s
    case Crash => Some(m.(stage := Down, current := None))
    case Launch => if m.stage.Down? then Some(m.(stage := Boot)) else None
    case FindTarget(target) =>
      if m.stage.Boot? && (target.Some? ==> IsTarget(m.disk, target.value))
      then Some(m.(stage := BootClean(target)))
      else None
    case RemoveEntry(n) =>
      if MayRemove(m.stage, n) && n in m.disk then Some(m.(disk := m.disk - {n})) else None
    case CleanDone =>
      (match m.stage
       case BootClean(keep) => Some(m.(stage := if keep.Some? then BootOpen(keep.value) else BootWipe))
       case BootWipe => Some(m.(stage := Ready))
       case Sweeping(_, temp) => Some(m.(stage := Dropping(temp)))
       case _ => None)
    case CleanFails =>
      (match m.stage
       case BootClean(_) => Some(m.(stage := Down, current := None))
       case BootWipe => Some(m.(stage := Down, current := None))
       case Sweeping(_, temp) => Some(m.(stage := Dropping(temp)))
       case _ => None)
    case OpenReturns(ok) =>
      (match m.stage
       case BootOpen(target) => if target in m.disk then Some(Opened(m, target, ok, Ready, BootWipe)) else None
       case Promoted(target, temp, reopen) =>
         if !reopen then Some(m.(stage := Sweeping(target, temp)))
         else if target in m.disk then Some(Opened(m, target, ok, Sweeping(target, temp), Rejecting(target, temp)))
         else None
       case _ => None)
    case MakeTemp(temp, time) =>
      if m.stage.Ready? && temp.TempName? && temp !in m.disk
      then Some(m.(stage := Fetching(temp), disk := m.disk[temp := Dir([], time)]))
      else None
    case Write(tree, time) =>
      if m.stage.Fetching? then Some(m.(disk := m.disk[m.stage.temp := Dir(tree, time)])) else None
    case DownloadReturns(ok) =>
      if !(m.stage.Fetching? && m.stage.temp in m.disk && m.disk[m.stage.temp].Dir?) then None
      else if ok then Some(m.(stage := Fetched(m.stage.temp), complete := m.complete + {m.disk[m.stage.temp].tree}))
      else Some(m.(stage := Dropping(m.stage.temp)))
    case Promote(ok) =>
      if !(m.stage.Fetched? && m.stage.temp in m.disk && m.disk[m.stage.temp].Dir?) then None
      else
        var temp := m.stage.temp;
        var target := Target(m.disk[temp].tree);
        if !ok then Some(m.(stage := Dropping(temp)))
        else if target in m.disk then Some(m.(stage := Promoted(target, temp, false)))
        else Some(m.(stage := Promoted(target, temp, true), disk := Renamed(m.disk, temp, target)))
    case Finish(removed) =>
      (match m.stage
       case Rejecting(target, temp) =>
         Some(m.(stage := Dropping(temp), disk := if removed then m.disk - {target} else m.disk))
       case Dropping(temp) =>
         Some(m.(stage := Ready, disk := if removed then m.disk - {temp} else m.disk))
       case _ => None)
  }

  function Run(m: Machine, steps: seq<Step>): Option<Machine>
    decreases |steps|
  {
    if steps == [] then Some(m)
    else
      var r := Next(m, steps[0]);
      if r.None? then None else Run(r.value, steps[1..])
  }

  function Start(first: Disk): Machine {
    Machine(first, first, None, Down, {}, [])
  }

  /** A target the system made holds a complete download, under its checksum; any other was there from the start. */
  predicate Sound(m: Machine, n: Name, e: Entry) {
    || (n in m.first && m.first[n] == e)
    || (e.Dir? && e.tree in m.complete && n == Target(e.tree))
  }

  predicate StageOk(m: Machine) {
    match m.stage
    case BootClean(keep) => keep.Some? ==> IsTarget(m.disk, keep.value)
    case BootOpen(target) => IsTarget(m.disk, target)
    case Fetching(temp) => temp.TempName? && temp in m.disk && m.disk[temp].Dir?
    case Fetched(temp) => temp.TempName? && temp in m.disk && m.disk[temp].Dir? && m.disk[temp].tree in m.complete
    case Promoted(target, _, reopen) => reopen ==> IsTarget(m.disk, target)
    case _ => true
  }

  predicate EntryOk(m: Machine, n: Name)
    requires n in m.disk
  {
    && (IsTarget(m.disk, n) ==> Sound(m, n, m.disk[n]))
    && (m.disk[n].PlainFile? ==> n in m.first && m.first[n] == m.disk[n])
  }

  predicate DiskOk(m: Machine) {
    forall n :: n in m.disk ==> EntryOk(m, n)
  }

  predicate OpeningsOk(m: Machine) {
    && (forall o :: o in m.openings ==> o.name.TargetName? && o.entry.Dir? && Sound(m, o.name, o.entry))
    && (m.current.Some? ==> exists o :: o in m.openings && o.name == m.current.value)
  }

  predicate Inv(m: Machine) {
    DiskOk(m) && OpeningsOk(m) && StageOk(m)
  }

  /** Entries that go, temporary directories that come and downloads that complete leave the rest as sound as it was. */
  lemma DiskFrame(m: Machine, m': Machine)
    requires DiskOk(m) && m'.first == m.first && m.complete <= m'.complete
    requires forall n :: n in m'.disk ==> (n in m.disk && m'.disk[n] == m.disk[n]) || (n.TempName? && m'.disk[n].Dir?)
    ensures DiskOk(m')
  {
    forall n | n in m'.disk ensures EntryOk(m', n) {
      if n in m.disk {
        assert EntryOk(m, n);
      }
    }
  }

  lemma OpeningsFrame(m: Machine, m': Machine)
    requires OpeningsOk(m) && m'.first == m.first && m.complete <= m'.complete
    requires m'.openings == m.openings && (m'.current == m.current || m'.current.None?)
    ensures OpeningsOk(m')
  {
  }

  lemma OpenKeeps(m: Machine, n: Name, ok: bool, next: Stage, otherwise: Stage)
    requires Inv(m) && IsTarget(m.disk, n)
    requires StageOk(m.(stage := next)) && StageOk(m.(stage := otherwise))
    ensures Inv(Opened(m, n, ok, next, otherwise))
  {
    var m' := Opened(m, n, ok, next, otherwise);
    assert EntryOk(m, n);
    DiskFrame(m, m');
    OpenedOk(m, n, ok, m');
  }

  lemma OpenedOk(m: Machine, n: Name, ok: bool, m': Machine)
    requires OpeningsOk(m) && IsTarget(m.disk, n) && Sound(m, n, m.disk[n])
    requires m'.first == m.first && m'.complete == m.complete
    requires m'.openings == m.openings + [Opening(n, m.disk[n])] && m'.current == (if ok then Some(n) else m.current)
    ensures OpeningsOk(m')
  {
    var o := Opening(n, m.disk[n]);
    assert o in m'.openings;
    assert forall p :: p in m.openings ==> p in m'.openings;
  }

  lemma OpenReturnsKeeps(m: Machine, ok: bool)
    requires Inv(m) && Next(m, OpenReturns(ok)).Some?
    ensures Inv(Next(m, OpenReturns(ok)).value)
  {
    if m.stage.BootOpen? {
      OpenKeeps(m, m.stage.target, ok, Ready, BootWipe);
    } else if m.stage.reopen {
      OpenKeeps(m, m.stage.target, ok, Sweeping(m.stage.target, m.stage.temp), Rejecting(m.stage.target, m.stage.temp));
    } else {
      DiskFrame(m, Next(m, OpenReturns(ok)).value);
    }
  }

  lemma PromoteKeeps(m: Machine, ok: bool)
    requires Inv(m) && Next(m, Promote(ok)).Some?
    ensures Inv(Next(m, Promote(ok)).value)
  {
    var m' := Next(m, Promote(ok)).value;
    OpeningsFrame(m, m');
    if m'.disk == m.disk {
      DiskFrame(m, m');
    } else {
      forall n | n in m'.disk ensures EntryOk(m', n) {
        if n in m.disk {
          assert EntryOk(m, n);
        }
      }
    }
  }

  /** Crashes, launches, the search for a target and the ends of a cleanup. */
  lemma StageStepKeeps(m: Machine, s: Step)
    requires s.Crash? || s.Launch? || s.FindTarget? || s.CleanDone? || s.CleanFails?
    requires Inv(m) && Next(m, s).Some?
    ensures Inv(Next(m, s).value)
  {
    DiskFrame(m, Next(m, s).value);
    OpeningsFrame(m, Next(m, s).value);
  }

  /** Removals, the making of a temporary directory and the writes of a download. */
  lemma DiskStepKeeps(m: Machine, s: Step)
    requires s.RemoveEntry? || s.MakeTemp? || s.Write? || s.DownloadReturns? || s.Finish?
    requires Inv(m) && Next(m, s).Some?
    ensures Inv(Next(m, s).value)
  {
    DiskFrame(m, Next(m, s).value);
    OpeningsFrame(m, Next(m, s).value);
  }

  lemma NextKeeps(m: Machine, s: Step)
    requires Inv(m) && Next(m, s).Some?
    ensures Inv(Next(m, s).value)
  {
    match s
    case OpenReturns(ok) => OpenReturnsKeeps(m, ok);
    case Promote(ok) => PromoteKeeps(m, ok);
    case RemoveEntry(_) => DiskStepKeeps(m, s);
    case MakeTemp(_, _) => DiskStepKeeps(m, s);
    case Write(_, _) => DiskStepKeeps(m, s);
    case DownloadReturns(_) => DiskStepKeeps(m, s);
    case Finish(_) => DiskStepKeeps(m, s);
    case _ => StageStepKeeps(m, s);
  }

  lemma NextFirst(m: Machine, s: Step)
    requires Next(m, s).Some?
    ensures Next(m, s).value.first == m.first
  {
  }

  lemma {:induction false} RunKeeps(m: Machine, steps: seq<Step>)
    requires Inv(m) && Run(m, steps).Some?
    ensures Inv(Run(m, steps).value)
    ensures Run(m, steps).value.first == m.first
    decreases |steps|
  {
    if steps != [] {
      NextKeeps(m, steps[0]);
      NextFirst(m, steps[0]);
      RunKeeps(Next(m, steps[0]).value, steps[1..]);
    }
  }

  /**
   In every run, with failures and crashes anywhere: a target directory that was not there from the start is
   the checksum-named home of a download that returned nil, and Open was only ever called on target
   directories with such contents. A partial download is never opened.
   */
  lemma CrashSafe(first: Disk, steps: seq<Step>)
    requires Run(Start(first), steps).Some?
    ensures var m := Run(Start(first), steps).value;
      && (forall n :: IsTarget(m.disk, n) && !(n in first && first[n] == m.disk[n]) ==>
          m.disk[n].tree in m.complete && n == Target(m.disk[n].tree))
      && (forall o :: o in m.openings ==> o.name.TargetName? && o.entry.Dir?)
      && (forall o :: o in m.openings && !(o.name in first && first[o.name] == o.entry) ==>
          o.entry.tree in m.complete && o.name == Target(o.entry.tree))
      && (m.current.Some? ==> exists o :: o in m.openings && o.name == m.current.value)
  {
    RunKeeps(Start(first), steps);
    var m := Run(Start(first), steps).value;
    forall n | IsTarget(m.disk, n) && !(n in first && first[n] == m.disk[n])
      ensures m.disk[n].tree in m.complete && n == Target(m.disk[n].tree)
    {
      assert EntryOk(m, n);
    }
    forall o | o in m.openings && !(o.name in first && first[o.name] == o.entry)
      ensures o.entry.tree in m.complete && o.name == Target(o.entry.tree)
    {
      assert Sound(m, o.name, o.entry);
    }
  }

  /** At this point of the steps, Download returns nil over a temporary directory that holds t. */
  predicate Downloaded(m: Machine, steps: seq<Step>, i: nat, t: Tree) {
    && i < |steps| && steps[i] == DownloadReturns(true)
    && Run(m, steps[..i]).Some?
    && var at := Run(m, steps[..i]).value;
       at.stage.Fetching? && at.stage.temp in at.disk && at.disk[at.stage.temp].Dir? && at.disk[at.stage.temp].tree == t
  }

  lemma {:induction false} CompleteWasDownloaded(m: Machine, steps: seq<Step>, t: Tree) returns (i: nat)
    requires Run(m, steps).Some? && t in Run(m, steps).value.complete && t !in m.complete
    ensures Downloaded(m, steps, i, t)
    decreases |steps|
  {
    assert steps != [];
    var m1 := Next(m, steps[0]).value;
    if t in m1.complete {
      CompleteGrows(m, steps[0], t);
      i := 0;
      assert steps[..0] == [];
    } else {
      var j := CompleteWasDownloaded(m1, steps[1..], t);
      i := j + 1;
      assert steps[..i][0] == steps[0] && steps[..i][1..] == steps[1..][..j];
    }
  }

  lemma CompleteGrows(m: Machine, s: Step, t: Tree)
    requires Next(m, s).Some? && t in Next(m, s).value.complete && t !in m.complete
    ensures s == DownloadReturns(true)
    ensures m.stage.Fetching? && m.stage.temp in m.disk && m.disk[m.stage.temp].Dir? && m.disk[m.stage.temp].tree == t
  {
  }

  /**
   In every run: whatever directory Open was called on, and was not there from the start, holds exactly what some
   earlier Download had left when it returned nil.
   */
  lemma OpenedWasDownloaded(first: Disk, steps: seq<Step>, o: Opening) returns (i: nat)
    requires Run(Start(first), steps).Some? && o in Run(Start(first), steps).value.openings
    requires !(o.name in first && first[o.name] == o.entry)
    ensures o.entry.Dir? && o.name == Target(o.entry.tree) && Downloaded(Start(first), steps, i, o.entry.tree)
  {
    CrashSafe(first, steps);
    i := CompleteWasDownloaded(Start(first), steps, o.entry.tree);
  }

  /**
   In every run: a target that Promote keeps because it bears the right name, and that was not there from the
   start, holds what has just been downloaded, for directories the checksum tells apart.
   */
  lemma KeptIsFetched(first: Disk, steps: seq<Step>, temp: Name, kept: Name)
    requires Run(Start(first), steps).Some? && Run(Start(first), steps).value.stage == Fetched(temp)
    requires temp in Run(Start(first), steps).value.disk && Run(Start(first), steps).value.disk[temp].Dir?
    requires kept == Target(Run(Start(first), steps).value.disk[temp].tree)
    requires kept in Run(Start(first), steps).value.disk && kept !in first
    ensures var disk := Run(Start(first), steps).value.disk;
      disk[kept].Dir? && (ToldApart(disk[kept].tree, disk[temp].tree) ==> disk[kept].tree == disk[temp].tree)
  {
    RunKeeps(Start(first), steps);
    var m := Run(Start(first), steps).value;
    assert EntryOk(m, kept);
    if ToldApart(m.disk[kept].tree, m.disk[temp].tree) {
      KeptTargetIsIdentical(m.disk, m.disk[temp].tree);
    }
  }
}
