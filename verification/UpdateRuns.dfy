/**
 The two models of an update agree: whatever `doUpdate` may do to the world (FsUpdaters.UpdateRel), a process
 that is not interrupted does step by step (CrashSafety.Machine).
 */
module UpdateRuns {
  import opened Options
  import opened Checksum
  import opened FsUpdaters
  import opened CrashSafety

  lemma RunFirst(m: Machine, s: Step, rest: seq<Step>)
    requires Next(m, s).Some?
    ensures Run(m, [s] + rest) == Run(Next(m, s).value, rest)
  {
    assert ([s] + rest)[1..] == rest;
  }

  lemma {:induction false} RunConcat(m: Machine, a: seq<Step>, b: seq<Step>)
    requires Run(m, a).Some?
    ensures Run(m, a + b) == Run(Run(m, a).value, b)
    decreases |a|
  {
    if a == [] {
      assert a + b == b;
    } else {
      assert (a + b)[1..] == a[1..] + b;
      RunConcat(Next(m, a[0]).value, a[1..], b);
    }
  }

  /** The machine is ready again with this disk and this database. */
  ghost predicate Reaches(m: Machine, steps: seq<Step>, w: World) {
    && Run(m, steps).Some?
    && Run(m, steps).value.stage.Ready?
    && World(Run(m, steps).value.disk, Run(m, steps).value.current) == w
  }

  lemma StepThen(m: Machine, s: Step, rest: seq<Step>, w: World)
    requires Next(m, s).Some? && Reaches(Next(m, s).value, rest, w)
    ensures Reaches(m, [s] + rest, w)
  {
    RunFirst(m, s, rest);
  }

  /** The deferred removal of the temporary directory. */
  lemma DropRun(m: Machine, stuck: set<Name>) returns (steps: seq<Step>)
    requires m.stage.Dropping?
    ensures Reaches(m, steps, World(Remove(m.disk, m.stage.temp, stuck), m.current))
  {
    var s := Finish(m.stage.temp !in stuck);
    steps := [s] + [];
    StepThen(m, s, [], World(Remove(m.disk, m.stage.temp, stuck), m.current));
  }

  /** A cleanup, complete or not, entry by entry. */
  lemma {:induction false} SweepRun(m: Machine, after: Disk) returns (steps: seq<Step>)
    requires m.stage.Sweeping? && after.Keys <= m.disk.Keys && forall n :: n in after ==> after[n] == m.disk[n]
    requires m.stage.target in m.disk ==> m.stage.target in after
    ensures Run(m, steps) == Some(m.(disk := after))
    decreases |m.disk.Keys - after.Keys|
  {
    if m.disk.Keys == after.Keys {
      assert m.disk == after;
      steps := [];
    } else {
      var n :| n in m.disk && n !in after;
      var m1 := Next(m, RemoveEntry(n)).value;
      assert m1.disk.Keys - after.Keys == m.disk.Keys - after.Keys - {n};
      var rest := SweepRun(m1, after);
      RunFirst(m, RemoveEntry(n), rest);
      steps := [RemoveEntry(n)] + rest;
    }
  }

  lemma SweepAndDrop(m: Machine, c: CleanupEnv, after: Disk, err: bool) returns (steps: seq<Step>)
    requires m.stage.Sweeping? && m.stage.target in m.disk
    requires CleanupRel(m.disk, {m.stage.target}, c, after, err)
    ensures Reaches(m, steps, World(Remove(after, m.stage.temp, c.stuck), m.current))
  {
    var sweep := SweepRun(m, after);
    var m1 := m.(disk := after);
    var end := if err then CleanFails else CleanDone;
    var rest := DropRun(Next(m1, end).value, c.stuck);
    StepThen(m1, end, rest, World(Remove(after, m.stage.temp, c.stuck), m.current));
    RunConcat(m, sweep, [end] + rest);
    steps := sweep + ([end] + rest);
  }

  /** A new target that does not open is removed, and the temporary directory after it. */
  lemma RejectRun(m: Machine, stuck: set<Name>) returns (steps: seq<Step>)
    requires m.stage.Rejecting?
    ensures Reaches(m, steps, World(Remove(Remove(m.disk, m.stage.target, stuck), m.stage.temp, stuck), m.current))
  {
    var s := Finish(m.stage.target !in stuck);
    var rest := DropRun(Next(m, s).value, stuck);
    steps := [s] + rest;
    StepThen(m, s, rest, World(Remove(Remove(m.disk, m.stage.target, stuck), m.stage.temp, stuck), m.current));
  }

  /** From the promoted directory on. */
  lemma PromotedRun(m: Machine, e: UpdateEnv, w': World, err: bool) returns (steps: seq<Step>)
    requires m.stage.Promoted? && m.stage.target in m.disk && m.stage.temp == e.temp
    requires m.stage.reopen && e.openFails ==>
      err && w' == World(Remove(Remove(m.disk, m.stage.target, e.cleanup.stuck), e.temp, e.cleanup.stuck), m.current)
    requires !(m.stage.reopen && e.openFails) ==>
      && w'.current == (if m.stage.reopen then Some(m.stage.target) else m.current)
      && exists d, ignored :: CleanupRel(m.disk, {m.stage.target}, e.cleanup, d, ignored)
                              && w'.disk == Remove(d, e.temp, e.cleanup.stuck)
    ensures Reaches(m, steps, w')
  {
    var s := OpenReturns(!e.openFails);
    var m1 := Next(m, s).value;
    var rest;
    if m.stage.reopen && e.openFails {
      rest := RejectRun(m1, e.cleanup.stuck);
    } else {
      var d, ignored :| CleanupRel(m.disk, {m.stage.target}, e.cleanup, d, ignored)
        && w'.disk == Remove(d, e.temp, e.cleanup.stuck);
      rest := SweepAndDrop(m1, e.cleanup, d, ignored);
    }
    StepThen(m, s, rest, w');
    steps := [s] + rest;
  }

  /** From the completed download on. */
  lemma FetchedRun(m: Machine, e: UpdateEnv, w: World, w': World, err: bool) returns (steps: seq<Step>)
    requires m.stage == Fetched(e.temp) && m.disk == w.disk[e.temp := Dir(e.contents, e.now)] && m.current == w.current
    requires TempIsNew(w, e) && UpdateRel(w, e, w', err) && !e.tempFails && !e.downloadFails
    ensures Reaches(m, steps, w')
  {
    var target := Target(e.contents);
    var fails := e.checksumFails || (target !in m.disk && e.renameFails);
    var m1 := Next(m, Promote(!fails)).value;
    var rest;
    if fails {
      rest := DropRun(m1, e.cleanup.stuck);
    } else {
      rest := PromotedRun(m1, e, w', err);
    }
    StepThen(m, Promote(!fails), rest, w');
    steps := [Promote(!fails)] + rest;
  }

  /** Every outcome of an update, whatever fails in it, is the end of a run from ready to ready. */
  lemma UpdateIsRun(m: Machine, e: UpdateEnv, w': World, err: bool) returns (steps: seq<Step>)
    requires m.stage.Ready? && TempIsNew(World(m.disk, m.current), e)
    requires UpdateRel(World(m.disk, m.current), e, w', err)
    ensures Reaches(m, steps, w')
  {
    if e.tempFails {
      steps := [];
    } else {
      var m1 := Next(m, MakeTemp(e.temp, e.now)).value;
      var m2 := Next(m1, Write(e.contents, e.now)).value;
      assert m2.disk == m.disk[e.temp := Dir(e.contents, e.now)];
      var m3 := Next(m2, DownloadReturns(!e.downloadFails)).value;
      var rest;
      if e.downloadFails {
        rest := DropRun(m3, e.cleanup.stuck);
      } else {
        rest := FetchedRun(m3, e, World(m.disk, m.current), w', err);
      }
      StepThen(m2, DownloadReturns(!e.downloadFails), rest, w');
      StepThen(m1, Write(e.contents, e.now), [DownloadReturns(!e.downloadFails)] + rest, w');
      steps := [MakeTemp(e.temp, e.now)] + ([Write(e.contents, e.now)] + ([DownloadReturns(!e.downloadFails)] + rest));
      StepThen(m, MakeTemp(e.temp, e.now), [Write(e.contents, e.now)] + ([DownloadReturns(!e.downloadFails)] + rest), w');
    }
  }
}
