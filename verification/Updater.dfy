/** The web server's self-update: two binaries replaced as a pair, and rolled back one by one. */
module Updater {
  import opened Syscalls

  datatype Layout = Layout(
    webCurrent: Path, webBackup: Path, webFailed: Path,
    serviceCurrent: Path, serviceBackup: Path, serviceFailed: Path)

  /** Six different files. */
  predicate DistinctPair(l: Layout) {
    && l.webCurrent != l.webBackup && l.webCurrent != l.webFailed && l.webBackup != l.webFailed
    && l.serviceCurrent != l.serviceBackup && l.serviceCurrent != l.serviceFailed && l.serviceBackup != l.serviceFailed
    && {l.webCurrent, l.webBackup, l.webFailed} !! {l.serviceCurrent, l.serviceBackup, l.serviceFailed}
  }

  /** The two extracted binaries of one update lie apart from those. */
  predicate Distinct(l: Layout, webNew: Path, serviceNew: Path) {
    && DistinctPair(l) && webNew != serviceNew
    && {webNew, serviceNew}
         !! {l.webCurrent, l.webBackup, l.webFailed, l.serviceCurrent, l.serviceBackup, l.serviceFailed}
  }

  // ------------------------------------------------------ replacing the pair

  function BackUpWeb(l: Layout): Call { Rename(l.webCurrent, l.webBackup) }
  function BackUpService(l: Layout): Call { Rename(l.serviceCurrent, l.serviceBackup) }
  function RestoreWeb(l: Layout): Call { Rename(l.webBackup, l.webCurrent) }
  function RestoreService(l: Layout): Call { Rename(l.serviceBackup, l.serviceCurrent) }

  function RestoreBoth(l: Layout, message: string): Program {
    Attempt(RestoreWeb(l), Attempt(RestoreService(l), Done(Err(message))))
  }

  function InstallService(l: Layout, serviceNew: Path): Program {
    Do(Rename(serviceNew, l.serviceCurrent),
       Done(Ok),
       Attempt(Remove(l.webCurrent), RestoreBoth(l, "replace service binary failed")))
  }

  function InstallWeb(l: Layout, webNew: Path, serviceNew: Path): Program {
    Do(Rename(webNew, l.webCurrent),
       InstallService(l, serviceNew),
       RestoreBoth(l, "replace web binary failed"))
  }

  function BackUpServiceThenInstall(l: Layout, webNew: Path, serviceNew: Path): Program {
    Do(BackUpService(l),
       InstallWeb(l, webNew, serviceNew),
       Attempt(RestoreWeb(l), Done(Err("backup service binary failed"))))
  }

  function BackUpPair(l: Layout, webNew: Path, serviceNew: Path): Program {
    Do(BackUpWeb(l), BackUpServiceThenInstall(l, webNew, serviceNew), Done(Err("backup web binary failed")))
  }

  function ReplacePair(l: Layout, webNew: Path, serviceNew: Path): Program {
    Attempt(Remove(l.webBackup), Attempt(Remove(l.serviceBackup), BackUpPair(l, webNew, serviceNew)))
  }

  method ReplaceBinaryPair(fs: FileSystem, l: Layout, webNew: Path, serviceNew: Path) returns (r: Outcome)
    modifies fs
    ensures Finished(r, fs.Snapshot()) == Exec(fs.faults, ReplacePair(l, webNew, serviceNew), old(fs.Snapshot()))
  {
    ghost var faults, start, d := fs.faults, fs.Snapshot(), fs.Snapshot();
    var _ := fs.Invoke(Remove(l.webBackup));
    var _ := fs.Invoke(Remove(l.serviceBackup));
    d := fs.Snapshot();
    assert Exec(faults, ReplacePair(l, webNew, serviceNew), start)
      == Exec(faults, BackUpPair(l, webNew, serviceNew), d);

    var ok := fs.Invoke(Rename(l.webCurrent, l.webBackup));
    if !ok {
      ExecDone(faults, Err("backup web binary failed"), fs.Snapshot());
      return Err("backup web binary failed");
    }
    d := fs.Snapshot();
    assert Exec(faults, ReplacePair(l, webNew, serviceNew), start)
        == Exec(faults, BackUpServiceThenInstall(l, webNew, serviceNew), d);
    ok := fs.Invoke(Rename(l.serviceCurrent, l.serviceBackup));
    if !ok {
      var _ := fs.Invoke(Rename(l.webBackup, l.webCurrent));
      ExecDone(faults, Err("backup service binary failed"), fs.Snapshot());
      assert Exec(faults, BackUpServiceThenInstall(l, webNew, serviceNew), d).disk == fs.Snapshot();
      return Err("backup service binary failed");
    }
    d := fs.Snapshot();
    assert Exec(faults, ReplacePair(l, webNew, serviceNew), start)
      == Exec(faults, InstallWeb(l, webNew, serviceNew), d);

    ok := fs.Invoke(Rename(webNew, l.webCurrent));
    if !ok {
      RestoreBothRuns(faults, l, "replace web binary failed", fs.Snapshot());
      var _ := fs.Invoke(Rename(l.webBackup, l.webCurrent));
      var _ := fs.Invoke(Rename(l.serviceBackup, l.serviceCurrent));
      return Err("replace web binary failed");
    }
    d := fs.Snapshot();
    assert Exec(faults, ReplacePair(l, webNew, serviceNew), start) == Exec(faults, InstallService(l, serviceNew), d);

    ok := fs.Invoke(Rename(serviceNew, l.serviceCurrent));
    if !ok {
      var _ := fs.Invoke(Remove(l.webCurrent));
      RestoreBothRuns(faults, l, "replace service binary failed", fs.Snapshot());
      var _ := fs.Invoke(Rename(l.webBackup, l.webCurrent));
      var _ := fs.Invoke(Rename(l.serviceBackup, l.serviceCurrent));
      return Err("replace service binary failed");
    }
    ExecDone(faults, Ok, fs.Snapshot());
    return Ok;
  }

  // ------------------------------------------- what one replacement can do

  /** The bytes are at one of the two places a binary lives. */
  predicate Kept(files: Files, current: Path, backup: Path, bytes: Bytes) {
    Holds(files, current, bytes) || Holds(files, backup, bytes)
  }

  predicate SameAt(path: Path, was: Files, now: Files) {
    (path in was <==> path in now) && (path in was ==> was[path] == now[path])
  }

  ghost predicate SameOutside(paths: set<Path>, was: Files, now: Files) {
    forall path :: path !in paths ==> SameAt(path, was, now)
  }

  ghost function Restores(l: Layout): set<Call> {
    {RestoreWeb(l), RestoreService(l)}
  }

  ghost function Touched(l: Layout, webNew: Path, serviceNew: Path): set<Path> {
    {l.webCurrent, l.webBackup, l.serviceCurrent, l.serviceBackup, webNew, serviceNew}
  }

  lemma RestoreBothRuns(faults: Faults, l: Layout, message: string, disk: Disk)
    ensures var d1 := Perform(faults, disk, RestoreWeb(l));
            Exec(faults, RestoreBoth(l, message), disk)
              == Finished(Err(message), Perform(faults, d1, RestoreService(l)))
  {
    var d1 := Perform(faults, disk, RestoreWeb(l));
    ExecDone(faults, Err(message), Perform(faults, d1, RestoreService(l)));
  }

  /** The failing end of an installation whose two originals sit in the backups. */
  ghost predicate PutBack(l: Layout, web: Bytes, service: Bytes, was: Disk, now: Disk) {
    && Kept(now.files, l.webCurrent, l.webBackup, web)
    && Kept(now.files, l.serviceCurrent, l.serviceBackup, service)
    && (AllOk(was, now, Restores(l)) ==>
          && Holds(now.files, l.webCurrent, web) && Holds(now.files, l.serviceCurrent, service)
          && l.webBackup !in now.files)
  }

  /** Both originals are put back, provided neither binary's place is taken by something else. */
  lemma RestoreBothOutcome(faults: Faults, l: Layout, message: string, disk: Disk, web: Bytes, service: Bytes)
    requires DistinctPair(l)
    requires Holds(disk.files, l.webBackup, web) && Holds(disk.files, l.serviceBackup, service)
    ensures var r := Exec(faults, RestoreBoth(l, message), disk);
            && r.outcome == Err(message) && PutBack(l, web, service, disk, r.disk)
            && SameOutside({l.webCurrent, l.webBackup, l.serviceCurrent, l.serviceBackup}, disk.files, r.disk.files)
  {
    RestoreBothRuns(faults, l, message, disk);
    var d1 := Perform(faults, disk, RestoreWeb(l));
    var d2 := Perform(faults, d1, RestoreService(l));
    assert d2.events[|disk.events|] == Event(RestoreWeb(l), Succeeds(faults, disk, RestoreWeb(l)));
    assert d2.events[|disk.events| + 1] == Event(RestoreService(l), Succeeds(faults, d1, RestoreService(l)));
  }

  lemma InstallServiceOutcome(faults: Faults, l: Layout, webNew: Path, serviceNew: Path, disk: Disk, web: Bytes,
                              service: Bytes)
    requires Distinct(l, webNew, serviceNew)
    requires Holds(disk.files, l.webBackup, web) && Holds(disk.files, l.serviceBackup, service)
    requires l.serviceCurrent !in disk.files
    ensures var r := Exec(faults, InstallService(l, serviceNew), disk);
            && SameOutside(Touched(l, webNew, serviceNew), disk.files, r.disk.files)
            && if Succeeds(faults, disk, Rename(serviceNew, l.serviceCurrent)) then
                 r.outcome == Ok
                   && r.disk.files == (disk.files - {serviceNew})[l.serviceCurrent := disk.files[serviceNew]]
               else
                 r.outcome != Ok && PutBack(l, web, service, disk, r.disk)
  {
    hide RestoreBoth;
    var program, next := InstallService(l, serviceNew), Perform(faults, disk, Rename(serviceNew, l.serviceCurrent));
    if Succeeds(faults, disk, Rename(serviceNew, l.serviceCurrent)) {
      ExecDone(faults, Ok, next);
    } else {
      var message, d1 := "replace service binary failed", Perform(faults, next, Remove(l.webCurrent));
      RestoreBothOutcome(faults, l, message, d1, web, service);
      assert Exec(faults, program, disk) == Exec(faults, RestoreBoth(l, message), d1);
    }
  }

  lemma InstallWebOutcome(faults: Faults, l: Layout, webNew: Path, serviceNew: Path, disk: Disk, web: Bytes,
                          service: Bytes)
    requires Distinct(l, webNew, serviceNew)
    requires Holds(disk.files, l.webBackup, web) && Holds(disk.files, l.serviceBackup, service)
    requires l.webCurrent !in disk.files && l.serviceCurrent !in disk.files
    ensures var r := Exec(faults, InstallWeb(l, webNew, serviceNew), disk);
            && SameOutside(Touched(l, webNew, serviceNew), disk.files, r.disk.files)
            && (r.outcome == Ok ==>
                  && webNew in disk.files && serviceNew in disk.files
                  && r.disk.files == (disk.files - {webNew, serviceNew})[l.webCurrent := disk.files[webNew]]
                                                                        [l.serviceCurrent := disk.files[serviceNew]])
            && (r.outcome != Ok ==> PutBack(l, web, service, disk, r.disk))
            && ((forall n :: !faults(n)) && webNew in disk.files && serviceNew in disk.files ==> r.outcome == Ok)
  {
    hide InstallService, RestoreBoth;
    var next := Perform(faults, disk, Rename(webNew, l.webCurrent));
    if Succeeds(faults, disk, Rename(webNew, l.webCurrent)) {
      InstallServiceOutcome(faults, l, webNew, serviceNew, next, web, service);
    } else {
      RestoreBothOutcome(faults, l, "replace web binary failed", next, web, service);
    }
  }

  lemma BackUpServiceOutcome(faults: Faults, l: Layout, webNew: Path, serviceNew: Path, disk: Disk, web: Bytes)
    requires Distinct(l, webNew, serviceNew)
    requires Holds(disk.files, l.webBackup, web) && l.webCurrent !in disk.files
    ensures var r := Exec(faults, BackUpServiceThenInstall(l, webNew, serviceNew), disk);
            && SameOutside(Touched(l, webNew, serviceNew), disk.files, r.disk.files)
            && (r.outcome == Ok ==>
                  && l.serviceCurrent in disk.files && webNew in disk.files && serviceNew in disk.files
                  && r.disk.files ==
                       (disk.files - {webNew, serviceNew})[l.webCurrent := disk.files[webNew]]
                                                          [l.serviceCurrent := disk.files[serviceNew]]
                                                          [l.serviceBackup := disk.files[l.serviceCurrent]])
            && (r.outcome != Ok ==> Kept(r.disk.files, l.webCurrent, l.webBackup, web))
            && (r.outcome != Ok && AllOk(disk, r.disk, Restores(l)) ==>
                  Holds(r.disk.files, l.webCurrent, web) && l.webBackup !in r.disk.files)
            && (r.outcome != Ok && l.serviceCurrent in disk.files ==>
                  Kept(r.disk.files, l.serviceCurrent, l.serviceBackup, disk.files[l.serviceCurrent]))
            && (r.outcome != Ok && AllOk(disk, r.disk, Restores(l)) ==>
              SameAt(l.serviceCurrent, disk.files, r.disk.files))
            && ((forall n :: !faults(n)) && {l.serviceCurrent, webNew, serviceNew} <= disk.files.Keys ==>
                  r.outcome == Ok)
  {
    hide InstallWeb, PutBack;
    var next := Perform(faults, disk, BackUpService(l));
    if Succeeds(faults, disk, BackUpService(l)) {
      InstallWebOutcome(faults, l, webNew, serviceNew, next, web, disk.files[l.serviceCurrent]);
      PutBackMeans(l, web, disk.files[l.serviceCurrent], next,
        Exec(faults, InstallWeb(l, webNew, serviceNew), next).disk);
    } else {
      var message, last := "backup service binary failed", Perform(faults, next, RestoreWeb(l));
      ExecDone(faults, Err(message), last);
      assert last.events[|disk.events| + 1] == Event(RestoreWeb(l), Succeeds(faults, next, RestoreWeb(l)));
    }
  }

  lemma PutBackMeans(l: Layout, web: Bytes, service: Bytes, was: Disk, now: Disk)
    ensures PutBack(l, web, service, was, now) ==>
              && Kept(now.files, l.webCurrent, l.webBackup, web)
              && Kept(now.files, l.serviceCurrent, l.serviceBackup, service)
              && (AllOk(was, now, Restores(l)) ==>
                    && Holds(now.files, l.webCurrent, web) && Holds(now.files, l.serviceCurrent, service)
                    && l.webBackup !in now.files)
  {
  }

  /** The files after a replacement that went through. */
  function Replaced(l: Layout, webNew: Path, serviceNew: Path, files: Files): Files
    requires {l.webCurrent, l.serviceCurrent, webNew, serviceNew} <= files.Keys
  {
    (files - {webNew, serviceNew})[l.webCurrent := files[webNew]][l.serviceCurrent := files[serviceNew]]
                                  [l.webBackup := files[l.webCurrent]][l.serviceBackup := files[l.serviceCurrent]]
  }

  predicate HasBackups(l: Layout, files: Files) {
    l.webBackup in files && l.serviceBackup in files
  }

  /** The whole contract of a replacement, between the disk before and the disk after. */
  ghost predicate AllOrNothing(faults: Faults, l: Layout, webNew: Path, serviceNew: Path, was: Disk, r: Finished) {
    && SameOutside(Touched(l, webNew, serviceNew), was.files, r.disk.files)
    && (r.outcome == Ok ==>
          && {l.webCurrent, l.serviceCurrent, webNew, serviceNew} <= was.files.Keys
          && r.disk.files == Replaced(l, webNew, serviceNew, was.files))
    && (r.outcome != Ok && AllOk(was, r.disk, Restores(l)) ==>
          && SameAt(l.webCurrent, was.files, r.disk.files) && SameAt(l.serviceCurrent, was.files, r.disk.files)
          && (HasBackups(l, r.disk.files) ==>
                SameAt(l.webBackup, was.files, r.disk.files) && SameAt(l.serviceBackup, was.files, r.disk.files)))
    && (l.webCurrent in was.files ==> Kept(r.disk.files, l.webCurrent, l.webBackup, was.files[l.webCurrent]))
    && (l.serviceCurrent in was.files ==>
          Kept(r.disk.files, l.serviceCurrent, l.serviceBackup, was.files[l.serviceCurrent]))
    && ((forall n :: !faults(n)) ==>
          (r.outcome == Ok <==> {l.webCurrent, l.serviceCurrent, webNew, serviceNew} <= was.files.Keys))
  }

  lemma BackUpPairOutcome(faults: Faults, l: Layout, webNew: Path, serviceNew: Path, disk: Disk)
    requires Distinct(l, webNew, serviceNew)
    ensures var r := Exec(faults, BackUpPair(l, webNew, serviceNew), disk);
            && AllOrNothing(faults, l, webNew, serviceNew, disk, r)
            && (r.outcome != Ok && AllOk(disk, r.disk, Restores(l)) ==>
                  (HasBackups(l, r.disk.files) <==> HasBackups(l, disk.files) && !Succeeds(faults, disk, BackUpWeb(l))))
  {
    hide BackUpServiceThenInstall;
    var next := Perform(faults, disk, BackUpWeb(l));
    if Succeeds(faults, disk, BackUpWeb(l)) {
      BackUpServiceOutcome(faults, l, webNew, serviceNew, next, disk.files[l.webCurrent]);
    } else {
      ExecDone(faults, Err("backup web binary failed"), next);
    }
  }

  /**
   * All or nothing, under every pattern of failing calls. Success leaves the new pair live and the
   * old pair in the backups. A failure in which no restoring rename failed leaves both live
   * binaries as they were. And even when restoring fails, each old binary survives at its place or
   * in its backup.
   */
  lemma ReplaceIsAllOrNothing(faults: Faults, l: Layout, webNew: Path, serviceNew: Path, disk: Disk)
    requires Distinct(l, webNew, serviceNew)
    ensures AllOrNothing(faults, l, webNew, serviceNew, disk, Exec(faults, ReplacePair(l, webNew, serviceNew), disk))
  {
    hide BackUpPair;
    var d1 := Perform(faults, disk, Remove(l.webBackup));
    var d2 := Perform(faults, d1, Remove(l.serviceBackup));
    assert Exec(faults, ReplacePair(l, webNew, serviceNew), disk)
      == Exec(faults, BackUpPair(l, webNew, serviceNew), d2);
    BackUpPairOutcome(faults, l, webNew, serviceNew, d2);
  }

  /**
   * What a failed replacement does to the way back, when every restore worked: a backup pair is still
   * there exactly if there was one and all of the first three calls, which clear it away, failed too.
   */
  lemma FailureForgetsBackups(faults: Faults, l: Layout, webNew: Path, serviceNew: Path, disk: Disk)
    requires Distinct(l, webNew, serviceNew)
    ensures var r := Exec(faults, ReplacePair(l, webNew, serviceNew), disk);
            var n := |disk.events|;
            r.outcome != Ok && AllOk(disk, r.disk, Restores(l)) ==>
              (HasBackups(l, r.disk.files) <==>
                 HasBackups(l, disk.files) && faults(n) && faults(n + 1)
                   && (l.webCurrent !in disk.files || faults(n + 2)))
  {
    hide BackUpPair;
    var d1 := Perform(faults, disk, Remove(l.webBackup));
    var d2 := Perform(faults, d1, Remove(l.serviceBackup));
    assert Exec(faults, ReplacePair(l, webNew, serviceNew), disk)
      == Exec(faults, BackUpPair(l, webNew, serviceNew), d2);
    BackUpPairOutcome(faults, l, webNew, serviceNew, d2);
  }

  /** So after a failed update whose first call worked, a rollback is refused, whatever was there before. */
  lemma FailureRefusesRollback(faults: Faults, l: Layout, webNew: Path, serviceNew: Path, disk: Disk)
    requires Distinct(l, webNew, serviceNew) && !faults(|disk.events|)
    ensures var r := Exec(faults, ReplacePair(l, webNew, serviceNew), disk);
            r.outcome != Ok && AllOk(disk, r.disk, Restores(l)) ==>
              Exec(faults, Rollback(l), r.disk) == Finished(Err("no backup to roll back to"), r.disk)
  {
    hide ReplacePair;
    FailureForgetsBackups(faults, l, webNew, serviceNew, disk);
    var r := Exec(faults, ReplacePair(l, webNew, serviceNew), disk);
    if !HasBackups(l, r.disk.files) { RollbackRefused(faults, l, r.disk); }
  }

  /** The state a failed restore leaves: the next replacement removes the backup before it misses the live binary. */
  lemma ReplaceWithoutLiveWeb(faults: Faults, l: Layout, webNew: Path, serviceNew: Path, disk: Disk)
    requires Distinct(l, webNew, serviceNew)
    requires l.webCurrent !in disk.files && l.webBackup in disk.files
    ensures var r := Exec(faults, ReplacePair(l, webNew, serviceNew), disk);
            && r.outcome != Ok && l.webCurrent !in r.disk.files
            && (Holds(r.disk.files, l.webBackup, disk.files[l.webBackup]) <==> faults(|disk.events|))
  {
    hide BackUpServiceThenInstall;
    var d1 := Perform(faults, disk, Remove(l.webBackup));
    var d2 := Perform(faults, d1, Remove(l.serviceBackup));
    var d3 := Perform(faults, d2, BackUpWeb(l));
    assert Exec(faults, ReplacePair(l, webNew, serviceNew), disk)
      == Exec(faults, BackUpPair(l, webNew, serviceNew), d2);
    ExecDone(faults, Err("backup web binary failed"), d3);
  }

  /** The bytes of the live web binary or, if there is none, of its backup. */
  function LastWeb(l: Layout, files: Files): Bytes
    requires l.webCurrent in files || l.webBackup in files
  {
    if l.webCurrent in files then files[l.webCurrent] else files[l.webBackup]
  }

  /** The last web binary survives a replacement exactly if it was live, or the backup could not be removed. */
  lemma LastWebSurvives(faults: Faults, l: Layout, webNew: Path, serviceNew: Path, disk: Disk)
    requires Distinct(l, webNew, serviceNew)
    requires l.webCurrent in disk.files || l.webBackup in disk.files
    ensures var r := Exec(faults, ReplacePair(l, webNew, serviceNew), disk);
            Kept(r.disk.files, l.webCurrent, l.webBackup, LastWeb(l, disk.files)) <==>
              l.webCurrent in disk.files || faults(|disk.events|)
  {
    hide Exec, ReplacePair;
    if l.webCurrent in disk.files {
      ReplaceIsAllOrNothing(faults, l, webNew, serviceNew, disk);
    } else {
      ReplaceWithoutLiveWeb(faults, l, webNew, serviceNew, disk);
    }
  }

  /** Likewise without a live service binary. */
  lemma ReplaceWithoutLiveService(faults: Faults, l: Layout, webNew: Path, serviceNew: Path, disk: Disk)
    requires Distinct(l, webNew, serviceNew)
    requires l.serviceCurrent !in disk.files && l.serviceBackup in disk.files
    ensures var r := Exec(faults, ReplacePair(l, webNew, serviceNew), disk);
            && r.outcome != Ok && l.serviceCurrent !in r.disk.files
            && (Holds(r.disk.files, l.serviceBackup, disk.files[l.serviceBackup]) <==> faults(|disk.events| + 1))
            && (l.serviceBackup in r.disk.files <==> faults(|disk.events| + 1))
  {
    hide InstallWeb;
    var d1 := Perform(faults, disk, Remove(l.webBackup));
    var d2 := Perform(faults, d1, Remove(l.serviceBackup));
    var d3 := Perform(faults, d2, BackUpWeb(l));
    assert Exec(faults, ReplacePair(l, webNew, serviceNew), disk)
      == Exec(faults, BackUpPair(l, webNew, serviceNew), d2);
    if Succeeds(faults, d2, BackUpWeb(l)) {
      var d4 := Perform(faults, d3, BackUpService(l));
      var d5 := Perform(faults, d4, RestoreWeb(l));
      ExecDone(faults, Err("backup service binary failed"), d5);
      assert Exec(faults, BackUpPair(l, webNew, serviceNew), d2)
          == Exec(faults, BackUpServiceThenInstall(l, webNew, serviceNew), d3);
      assert Exec(faults, BackUpServiceThenInstall(l, webNew, serviceNew), d3)
          == Finished(Err("backup service binary failed"), d5);
    } else {
      ExecDone(faults, Err("backup web binary failed"), d3);
    }
  }

  function LastService(l: Layout, files: Files): Bytes
    requires l.serviceCurrent in files || l.serviceBackup in files
  {
    if l.serviceCurrent in files then files[l.serviceCurrent] else files[l.serviceBackup]
  }

  /** And the last service binary exactly if it was live, or its backup could not be removed. */
  lemma LastServiceSurvives(faults: Faults, l: Layout, webNew: Path, serviceNew: Path, disk: Disk)
    requires Distinct(l, webNew, serviceNew)
    requires l.serviceCurrent in disk.files || l.serviceBackup in disk.files
    ensures var r := Exec(faults, ReplacePair(l, webNew, serviceNew), disk);
            Kept(r.disk.files, l.serviceCurrent, l.serviceBackup, LastService(l, disk.files)) <==>
              l.serviceCurrent in disk.files || faults(|disk.events| + 1)
  {
    hide Exec, ReplacePair;
    if l.serviceCurrent in disk.files {
      ReplaceIsAllOrNothing(faults, l, webNew, serviceNew, disk);
    } else {
      ReplaceWithoutLiveService(faults, l, webNew, serviceNew, disk);
    }
  }

  lemma RestoreCanFail(faults: Faults, l: Layout, webNew: Path, serviceNew: Path, disk: Disk)
    requires Distinct(l, webNew, serviceNew)
    requires l.webCurrent in disk.files && l.serviceCurrent in disk.files
    requires forall n :: faults(n) <==> n == |disk.events| + 3 || n == |disk.events| + 4
    ensures var r := Exec(faults, ReplacePair(l, webNew, serviceNew), disk);
            && r.outcome != Ok && l.webCurrent !in r.disk.files
            && Holds(r.disk.files, l.webBackup, disk.files[l.webCurrent])
            && |r.disk.events| == |disk.events| + 5
  {
    hide InstallWeb;
    var d1 := Perform(faults, disk, Remove(l.webBackup));
    var d2 := Perform(faults, d1, Remove(l.serviceBackup));
    var d3 := Perform(faults, d2, BackUpWeb(l));
    var d4 := Perform(faults, d3, BackUpService(l));
    var d5 := Perform(faults, d4, RestoreWeb(l));
    assert Exec(faults, ReplacePair(l, webNew, serviceNew), disk)
      == Exec(faults, BackUpPair(l, webNew, serviceNew), d2);
    assert !faults(|d2.events|) && faults(|d3.events|) && faults(|d4.events|);
    assert Exec(faults, BackUpPair(l, webNew, serviceNew), d2)
        == Exec(faults, BackUpServiceThenInstall(l, webNew, serviceNew), d3);
    ExecDone(faults, Err("backup service binary failed"), d5);
    assert Exec(faults, BackUpServiceThenInstall(l, webNew, serviceNew), d3)
        == Finished(Err("backup service binary failed"), d5);
  }

  /**
   * Keeping the originals does not survive two replacements: when a restoring rename fails in the
   * first, a second one without any further fault deletes the last copy of the live web binary.
   */
  lemma TwoReplacementsCanLoseWeb(faults: Faults, l: Layout, a: (Path, Path), b: (Path, Path), disk: Disk)
    requires Distinct(l, a.0, a.1) && Distinct(l, b.0, b.1)
    requires l.webCurrent in disk.files && l.serviceCurrent in disk.files
    requires forall n :: faults(n) <==> n == |disk.events| + 3 || n == |disk.events| + 4
    ensures var first := Exec(faults, ReplacePair(l, a.0, a.1), disk);
            var second := Exec(faults, ReplacePair(l, b.0, b.1), first.disk);
            && Holds(first.disk.files, l.webBackup, disk.files[l.webCurrent])
            && !Kept(second.disk.files, l.webCurrent, l.webBackup, disk.files[l.webCurrent])
  {
    hide Exec, ReplacePair;
    RestoreCanFail(faults, l, a.0, a.1, disk);
    ReplaceWithoutLiveWeb(faults, l, b.0, b.1, Exec(faults, ReplacePair(l, a.0, a.1), disk).disk);
  }

  // -------------------------------------------------------------- rolling back

  function SwapBack(current: Path, backup: Path, failed: Path, next: Program): Program {
    Attempt(Remove(failed),
      Do(Rename(current, failed),
         Do(Rename(backup, current),
            Attempt(Remove(failed), next),
            Attempt(Rename(failed, current), Done(Err("rename failed")))),
         Done(Err("rename failed"))))
  }

  function SwapBackWeb(l: Layout, next: Program): Program {
    SwapBack(l.webCurrent, l.webBackup, l.webFailed, next)
  }

  function SwapBackService(l: Layout): Program {
    SwapBack(l.serviceCurrent, l.serviceBackup, l.serviceFailed, Done(Ok))
  }

  function Rollback(l: Layout): Program {
    IsFile(l.webBackup,
      IsFile(l.serviceBackup, SwapBackWeb(l, SwapBackService(l)), Done(Err("no backup to roll back to"))),
      Done(Err("no backup to roll back to")))
  }

  /** The handler, with the answer of the runtime check. */
  function GuardedRollback(l: Layout, eligible: bool): Program {
    if eligible then Rollback(l) else Done(Err("rollback not supported"))
  }

  lemma RollbackRefused(faults: Faults, l: Layout, disk: Disk)
    requires !HasBackups(l, disk.files)
    ensures Exec(faults, Rollback(l), disk) == Finished(Err("no backup to roll back to"), disk)
  {
    ExecDone(faults, Err("no backup to roll back to"), disk);
  }

  /** The disks one swap passes through. */
  ghost function SwapTrail(faults: Faults, current: Path, backup: Path, failed: Path, disk: Disk)
    : (Disk, Disk, Disk, Disk)
  {
    var d1 := Perform(faults, disk, Remove(failed));
    var d2 := Perform(faults, d1, Rename(current, failed));
    var d3 := Perform(faults, d2, Rename(backup, current));
    var last := if Succeeds(faults, d2, Rename(backup, current)) then Remove(failed) else Rename(failed, current);
    (d1, d2, d3, Perform(faults, d3, last))
  }

  lemma SwapBackRuns(faults: Faults, current: Path, backup: Path, failed: Path, next: Program, disk: Disk)
    ensures var (d1, d2, d3, d4) := SwapTrail(faults, current, backup, failed, disk);
            Exec(faults, SwapBack(current, backup, failed, next), disk) ==
              if !Succeeds(faults, d1, Rename(current, failed)) then Finished(Err("rename failed"), d2)
              else if !Succeeds(faults, d2, Rename(backup, current)) then Finished(Err("rename failed"), d4)
              else Exec(faults, next, d4)
  {
    var (d1, d2, d3, d4) := SwapTrail(faults, current, backup, failed, disk);
    var install := Do(Rename(backup, current), Attempt(Remove(failed), next),
                      Attempt(Rename(failed, current), Done(Err("rename failed"))));
    assert Exec(faults, SwapBack(current, backup, failed, next), disk)
        == Exec(faults, Do(Rename(current, failed), install, Done(Err("rename failed"))), d1);
    ExecDone(faults, Err("rename failed"), d2);
    ExecDone(faults, Err("rename failed"), d4);
    if Succeeds(faults, d1, Rename(current, failed)) {
      assert Exec(faults, SwapBack(current, backup, failed, next), disk) == Exec(faults, install, d2);
      if Succeeds(faults, d2, Rename(backup, current)) {
        assert Exec(faults, install, d2) == Exec(faults, Attempt(Remove(failed), next), d3);
      } else {
        assert Exec(faults, install, d2) == Exec(faults, install.ifErr, d3);
        assert Exec(faults, install.ifErr, d3) == Exec(faults, Done(Err("rename failed")), d4);
      }
    }
  }

  /** A swap followed by something: that runs exactly if the swap alone reports success. */
  lemma SwapBackThen(faults: Faults, current: Path, backup: Path, failed: Path, next: Program, disk: Disk)
    ensures var r := Exec(faults, SwapBack(current, backup, failed, Done(Ok)), disk);
            Exec(faults, SwapBack(current, backup, failed, next), disk) ==
              if r.outcome == Ok then Exec(faults, next, r.disk) else r
  {
    hide SwapBack, Succeeds, Perform;
    var (d1, d2, d3, d4) := SwapTrail(faults, current, backup, failed, disk);
    SwapBackRuns(faults, current, backup, failed, next, disk);
    SwapBackRuns(faults, current, backup, failed, Done(Ok), disk);
    ExecDone(faults, Ok, d4);
  }

  method SwapBackBackup(fs: FileSystem, current: Path, backup: Path, failed: Path) returns (r: Outcome)
    modifies fs
    ensures Finished(r, fs.Snapshot()) ==
            Exec(fs.faults, SwapBack(current, backup, failed, Done(Ok)), old(fs.Snapshot()))
  {
    hide Exec;
    SwapBackRuns(fs.faults, current, backup, failed, Done(Ok), fs.Snapshot());
    var _ := fs.Invoke(Remove(failed));
    var ok := fs.Invoke(Rename(current, failed));
    if !ok {
      return Err("rename failed");
    }
    ok := fs.Invoke(Rename(backup, current));
    if !ok {
      var _ := fs.Invoke(Rename(failed, current));
      return Err("rename failed");
    }
    var _ := fs.Invoke(Remove(failed));
    ExecDone(fs.faults, Ok, fs.Snapshot());
    return Ok;
  }

  method RollbackUpdate(fs: FileSystem, l: Layout, eligible: bool) returns (r: Outcome)
    modifies fs
    ensures Finished(r, fs.Snapshot()) == Exec(fs.faults, GuardedRollback(l, eligible), old(fs.Snapshot()))
  {
    ghost var start := fs.Snapshot();
    if !eligible {
      ExecDone(fs.faults, Err("rollback not supported"), start);
      return Err("rollback not supported");
    }
    if l.webBackup !in fs.files || l.serviceBackup !in fs.files {
      RollbackRefused(fs.faults, l, start);
      return Err("no backup to roll back to");
    }
    assert Exec(fs.faults, Rollback(l), start) == Exec(fs.faults, SwapBackWeb(l, SwapBackService(l)), start);
    SwapBackThen(fs.faults, l.webCurrent, l.webBackup, l.webFailed, SwapBackService(l), start);
    r := SwapBackBackup(fs, l.webCurrent, l.webBackup, l.webFailed);
    if r != Ok {
      return r;
    }
    r := SwapBackBackup(fs, l.serviceCurrent, l.serviceBackup, l.serviceFailed);
  }

  /** One swap: the backup becomes live and is used up, or nothing moves for good. */
  ghost predicate Swapped(faults: Faults, current: Path, backup: Path, failed: Path, was: Disk, r: Finished) {
    && SameOutside({current, backup, failed}, was.files, r.disk.files)
    && (r.outcome == Ok ==>
          && current in was.files && backup in was.files
          && Holds(r.disk.files, current, was.files[backup]) && backup !in r.disk.files)
    && (r.outcome != Ok ==> SameAt(backup, was.files, r.disk.files))
    && (r.outcome != Ok && current in was.files ==> Kept(r.disk.files, current, failed, was.files[current]))
    && (r.outcome != Ok && AllOk(was, r.disk, {Rename(failed, current)}) ==> SameAt(current, was.files, r.disk.files))
    && ((forall n :: !faults(n)) ==> (r.outcome == Ok <==> current in was.files && backup in was.files))
  }

  lemma SwapBackOutcome(faults: Faults, current: Path, backup: Path, failed: Path, disk: Disk)
    requires current != backup && current != failed && backup != failed
    ensures Swapped(faults, current, backup, failed, disk,
                    Exec(faults, SwapBack(current, backup, failed, Done(Ok)), disk))
  {
    hide Exec;
    SwapBackRuns(faults, current, backup, failed, Done(Ok), disk);
    var (d1, d2, d3, d4) := SwapTrail(faults, current, backup, failed, disk);
    ExecDone(faults, Ok, d4);
    if Succeeds(faults, d1, Rename(current, failed)) && !Succeeds(faults, d2, Rename(backup, current)) {
      assert d4.events[|disk.events| + 3]
        == Event(Rename(failed, current), Succeeds(faults, d3, Rename(failed, current)));
    }
  }

  /**
   * A rollback treats the halves one after the other. It is refused, touching nothing, unless both
   * backups exist. Success makes the backups live and uses them up. After a failure (with the
   * restoring renames done) the service is as before, and the pair is mixed exactly when the web
   * half had already been swapped.
   */
  lemma RollbackOutcome(faults: Faults, l: Layout, disk: Disk)
    requires DistinctPair(l)
    ensures var r := Exec(faults, Rollback(l), disk);
            var web := Exec(faults, SwapBackWeb(l, Done(Ok)), disk);
            if {l.webBackup, l.serviceBackup} <= disk.files.Keys then
              && (r.outcome == Ok ==>
                    && Holds(r.disk.files, l.webCurrent, disk.files[l.webBackup])
                    && Holds(r.disk.files, l.serviceCurrent, disk.files[l.serviceBackup])
                    && l.webBackup !in r.disk.files && l.serviceBackup !in r.disk.files)
              && (r.outcome != Ok && AllOk(disk, r.disk, RollbackRestores(l)) ==>
                    && SameAt(l.serviceCurrent, disk.files, r.disk.files)
                    && SameAt(l.serviceBackup, disk.files, r.disk.files)
                    && if web.outcome == Ok then
                         Holds(r.disk.files, l.webCurrent, disk.files[l.webBackup]) && l.webBackup !in r.disk.files
                       else
                         SameAt(l.webCurrent, disk.files, r.disk.files)
                           && SameAt(l.webBackup, disk.files, r.disk.files))
              && Kept(r.disk.files, l.webCurrent, l.webBackup, disk.files[l.webBackup])
              && Kept(r.disk.files, l.serviceCurrent, l.serviceBackup, disk.files[l.serviceBackup])
              && ((forall n :: !faults(n)) ==>
                    (r.outcome == Ok <==> {l.webCurrent, l.serviceCurrent} <= disk.files.Keys))
            else
              r.outcome != Ok && r.disk == disk
  {
    hide SwapBack;
    if {l.webBackup, l.serviceBackup} <= disk.files.Keys {
      var web := Exec(faults, SwapBackWeb(l, Done(Ok)), disk);
      var service := Exec(faults, SwapBackService(l), web.disk);
      assert Exec(faults, Rollback(l), disk) == Exec(faults, SwapBackWeb(l, SwapBackService(l)), disk);
      SwapBackThen(faults, l.webCurrent, l.webBackup, l.webFailed, SwapBackService(l), disk);
      SwapBackOutcome(faults, l.webCurrent, l.webBackup, l.webFailed, disk);
      ExecExtends(faults, SwapBackWeb(l, Done(Ok)), disk);
      if web.outcome == Ok {
        SwapBackOutcome(faults, l.serviceCurrent, l.serviceBackup, l.serviceFailed, web.disk);
      }
    } else {
      ExecDone(faults, Err("no backup to roll back to"), disk);
    }
  }

  ghost function RollbackRestores(l: Layout): set<Call> {
    {Rename(l.webFailed, l.webCurrent), Rename(l.serviceFailed, l.serviceCurrent)}
  }

  /** When a swap reports success, by the calls that may fail. */
  lemma SwapBackSucceeds(faults: Faults, current: Path, backup: Path, failed: Path, disk: Disk)
    requires current != backup && current != failed && backup != failed && backup in disk.files
    ensures var r, n := Exec(faults, SwapBack(current, backup, failed, Done(Ok)), disk), |disk.events|;
            && (r.outcome == Ok <==> current in disk.files && !faults(n + 1) && !faults(n + 2))
            && (r.outcome == Ok ==> |r.disk.events| == n + 4)
  {
    hide Exec;
    SwapBackRuns(faults, current, backup, failed, Done(Ok), disk);
    ExecDone(faults, Ok, SwapTrail(faults, current, backup, failed, disk).3);
  }

  /**
   * Exactly when a rollback fails with its web half already swapped: the two web renames work, and one
   * of the two service renames does not.
   */
  lemma RollbackHalfDone(faults: Faults, l: Layout, disk: Disk)
    requires DistinctPair(l) && HasBackups(l, disk.files)
    ensures var r, n := Exec(faults, Rollback(l), disk), |disk.events|;
            r.outcome != Ok && l.webBackup !in r.disk.files <==>
              && l.webCurrent in disk.files && !faults(n + 1) && !faults(n + 2)
              && (l.serviceCurrent !in disk.files || faults(n + 5) || faults(n + 6))
  {
    hide Exec, SwapBack;
    RollbackStarts(faults, l, disk);
    SwapBackThen(faults, l.webCurrent, l.webBackup, l.webFailed, SwapBackService(l), disk);
    SwapBackOutcome(faults, l.webCurrent, l.webBackup, l.webFailed, disk);
    SwapBackSucceeds(faults, l.webCurrent, l.webBackup, l.webFailed, disk);
    var web := Exec(faults, SwapBackWeb(l, Done(Ok)), disk);
    if web.outcome == Ok {
      SwapBackOutcome(faults, l.serviceCurrent, l.serviceBackup, l.serviceFailed, web.disk);
      SwapBackSucceeds(faults, l.serviceCurrent, l.serviceBackup, l.serviceFailed, web.disk);
    }
  }

  /** One fault is enough for a mixed pair: the web half is swapped, and the first service rename fails. */
  lemma RollbackCanMix(faults: Faults, l: Layout, disk: Disk)
    requires DistinctPair(l)
    requires {l.webCurrent, l.webBackup, l.serviceCurrent, l.serviceBackup} <= disk.files.Keys
    requires forall n :: faults(n) <==> n == |disk.events| + 5
    ensures var r := Exec(faults, Rollback(l), disk);
            && r.outcome != Ok
            && Holds(r.disk.files, l.webCurrent, disk.files[l.webBackup])
            && Holds(r.disk.files, l.serviceCurrent, disk.files[l.serviceCurrent])
  {
    hide Exec, SwapBack;
    RollbackStarts(faults, l, disk);
    SwapBackThen(faults, l.webCurrent, l.webBackup, l.webFailed, SwapBackService(l), disk);
    SwapBackOutcome(faults, l.webCurrent, l.webBackup, l.webFailed, disk);
    SwapBackSucceeds(faults, l.webCurrent, l.webBackup, l.webFailed, disk);
    var web := Exec(faults, SwapBackWeb(l, Done(Ok)), disk);
    SwapBackSucceeds(faults, l.serviceCurrent, l.serviceBackup, l.serviceFailed, web.disk);
    SwapBackOutcome(faults, l.serviceCurrent, l.serviceBackup, l.serviceFailed, web.disk);
    FirstRenameFails(faults, l.serviceCurrent, l.serviceBackup, l.serviceFailed, web.disk);
  }

  lemma FirstRenameFails(faults: Faults, current: Path, backup: Path, failed: Path, disk: Disk)
    requires current != failed && faults(|disk.events| + 1)
    ensures SameAt(current, disk.files, Exec(faults, SwapBack(current, backup, failed, Done(Ok)), disk).disk.files)
  {
    hide Exec;
    SwapBackRuns(faults, current, backup, failed, Done(Ok), disk);
  }

  lemma RollbackStarts(faults: Faults, l: Layout, disk: Disk)
    requires HasBackups(l, disk.files)
    ensures Exec(faults, Rollback(l), disk) == Exec(faults, SwapBackWeb(l, SwapBackService(l)), disk)
  {
    hide SwapBack;
  }
}
