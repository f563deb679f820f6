/** Whole runs of update and rollback requests under the operation lock. */
module UpdateRuns {
  import opened Text
  import opened Syscalls
  import opened Updater
  import opened OperationLock
  import UpdateVersions

  /** The two binaries of one release. */
  datatype Release = Release(web: Bytes, service: Bytes)

  /**
   * The running version, the tag of the newest release if one is found, and whether it could be
   * downloaded and verified.
   */
  datatype Offer = Offer(current: string, latest: Option<string>, fetched: bool)

  predicate Newer(offer: Offer) {
    offer.latest.Some? && UpdateVersions.Accepted(offer.current, offer.latest.value)
  }

  /** `eligible` is the answer of the runtime check. */
  datatype Request =
    | Update(eligible: bool, offer: Offer, webNew: Path, serviceNew: Path, release: Release)
    | RollBack(eligible: bool)

  predicate WellPlaced(l: Layout, request: Request) {
    request.Update? ==> Distinct(l, request.webNew, request.serviceNew)
  }

  function Unpack(l: Layout, webNew: Path, serviceNew: Path, release: Release): Program {
    Do(Write(webNew, release.web),
       Do(Write(serviceNew, release.service),
          ReplacePair(l, webNew, serviceNew),
          Done(Err("write failed"))),
       Done(Err("write failed")))
  }

  function ProgramOf(l: Layout, request: Request): Program {
    match request
    case Update(eligible, offer, webNew, serviceNew, release) =>
      if !eligible then Done(Err("self-update not supported"))
      else if offer.latest.None? then Done(Err("no release found"))
      else if !Newer(offer) then Done(Err("already up to date"))
      else
        IsFile(l.serviceCurrent,
          if offer.fetched then Unpack(l, webNew, serviceNew, release) else Done(Err("download failed")),
          Done(Err("missing sibling service binary")))
    case RollBack(eligible) => GuardedRollback(l, eligible)
  }

  function Programs(l: Layout, requests: seq<Request>): (r: seq<Program>)
    ensures |r| == |requests| && forall k :: 0 <= k < |r| ==> r[k] == ProgramOf(l, requests[k])
  {
    seq(|requests|, k requires 0 <= k < |requests| => ProgramOf(l, requests[k]))
  }

  // ------------------------------------------------ the one-level undo model

  /** What the installation means: a live release and, perhaps, one to go back to. */
  datatype Install = Install(live: Release, backup: Option<Release>)

  predicate Accepted(st: Install, request: Request) {
    match request
    case Update(eligible, offer, _, _, _) => eligible && Newer(offer) && offer.fetched
    case RollBack(eligible) => eligible && st.backup.Some?
  }

  /** A request that goes through. */
  function Applied(st: Install, request: Request): Install
    requires request.RollBack? ==> st.backup.Some?
  {
    match request
    case Update(_, _, _, _, release) => Install(release, Some(st.live))
    case RollBack(_) => Install(st.backup.value, None)
  }

  function Next(st: Install, request: Request): Install {
    if Accepted(st, request) then Applied(st, request) else st
  }

  function After(st: Install, requests: seq<Request>): Install {
    if requests == [] then st else Next(After(st, requests[..|requests| - 1]), requests[|requests| - 1])
  }

  /** The files show this installation. */
  predicate Shows(l: Layout, files: Files, st: Install) {
    && Holds(files, l.webCurrent, st.live.web)
    && Holds(files, l.serviceCurrent, st.live.service)
    && (st.backup.Some? <==> HasBackups(l, files))
    && (st.backup.Some? ==>
          Holds(files, l.webBackup, st.backup.value.web) && Holds(files, l.serviceBackup, st.backup.value.service))
  }

  lemma UnpackRuns(faults: Faults, l: Layout, webNew: Path, serviceNew: Path, release: Release, disk: Disk)
    ensures var d1 := Perform(faults, disk, Write(webNew, release.web));
            var d2 := Perform(faults, d1, Write(serviceNew, release.service));
            Exec(faults, Unpack(l, webNew, serviceNew, release), disk) ==
              if !Succeeds(faults, disk, Write(webNew, release.web)) then Finished(Err("write failed"), d1)
              else if !Succeeds(faults, d1, Write(serviceNew, release.service)) then Finished(Err("write failed"), d2)
              else Exec(faults, ReplacePair(l, webNew, serviceNew), d2)
  {
    hide ReplacePair;
    var d1 := Perform(faults, disk, Write(webNew, release.web));
    var d2 := Perform(faults, d1, Write(serviceNew, release.service));
    ExecDone(faults, Err("write failed"), d1);
    ExecDone(faults, Err("write failed"), d2);
    if Succeeds(faults, disk, Write(webNew, release.web)) {
      var second :=
        Do(Write(serviceNew, release.service), ReplacePair(l, webNew, serviceNew), Done(Err("write failed")));
      assert Exec(faults, Unpack(l, webNew, serviceNew, release), disk) == Exec(faults, second, d1);
    }
  }

  lemma UpdateShows(faults: Faults, l: Layout, request: Request, disk: Disk, st: Install)
    requires request.Update? && WellPlaced(l, request) && Shows(l, disk.files, st)
    requires forall n :: !faults(n)
    ensures var r := Exec(faults, ProgramOf(l, request), disk);
            && Shows(l, r.disk.files, Next(st, request))
            && (r.outcome == Ok <==> Accepted(st, request))
            && (!Accepted(st, request) ==> r.disk == disk)
  {
    hide ReplacePair, Unpack, ProgramOf, Newer;
    if Accepted(st, request) {
      var Update(_, _, webNew, serviceNew, release) := request;
      UnpackRuns(faults, l, webNew, serviceNew, release, disk);
      var d1 := Perform(faults, disk, Write(webNew, release.web));
      var d2 := Perform(faults, d1, Write(serviceNew, release.service));
      ReplaceIsAllOrNothing(faults, l, webNew, serviceNew, d2);
      UpdateUnpacks(faults, l, request, disk);
    } else {
      NotAccepted(faults, l, request, disk);
    }
  }

  /** An update that passes all checks. */
  lemma UpdateUnpacks(faults: Faults, l: Layout, request: Request, disk: Disk)
    requires request.Update? && request.eligible && Newer(request.offer) && request.offer.fetched
    requires l.serviceCurrent in disk.files
    ensures Exec(faults, ProgramOf(l, request), disk)
         == Exec(faults, Unpack(l, request.webNew, request.serviceNew, request.release), disk)
  {
    hide Unpack, UpdateVersions.Accepted;
  }

  /** An update that is refused before anything is written. */
  lemma NotAccepted(faults: Faults, l: Layout, request: Request, disk: Disk)
    requires request.Update? && !(request.eligible && Newer(request.offer) && request.offer.fetched)
    ensures var r := Exec(faults, ProgramOf(l, request), disk); r.outcome != Ok && r.disk == disk
  {
    hide Unpack, Newer;
    ExecDone(faults, Err("self-update not supported"), disk);
    ExecDone(faults, Err("no release found"), disk);
    ExecDone(faults, Err("already up to date"), disk);
    ExecDone(faults, Err("download failed"), disk);
    ExecDone(faults, Err("missing sibling service binary"), disk);
  }

  lemma RollBackShows(faults: Faults, l: Layout, request: Request, disk: Disk, st: Install)
    requires request.RollBack? && DistinctPair(l) && Shows(l, disk.files, st)
    requires forall n :: !faults(n)
    ensures var r := Exec(faults, ProgramOf(l, request), disk);
            && Shows(l, r.disk.files, Next(st, request))
            && (r.outcome == Ok <==> Accepted(st, request))
            && (!Accepted(st, request) ==> r.disk == disk)
  {
    hide Exec, Rollback;
    RollbackOutcome(faults, l, disk);
    ExecDone(faults, Err("rollback not supported"), disk);
  }

  lemma RequestShows(faults: Faults, l: Layout, request: Request, disk: Disk, st: Install)
    requires DistinctPair(l) && WellPlaced(l, request) && Shows(l, disk.files, st)
    requires forall n :: !faults(n)
    ensures var r := Exec(faults, ProgramOf(l, request), disk);
            && Shows(l, r.disk.files, Next(st, request))
            && (r.outcome == Ok <==> Accepted(st, request))
            && (!Accepted(st, request) ==> r.disk == disk)
  {
    hide *;
    if request.Update? {
      UpdateShows(faults, l, request, disk, st);
    } else {
      RollBackShows(faults, l, request, disk, st);
    }
  }

  /** The requests of a lock order. */
  function InOrder(requests: seq<Request>, order: seq<nat>): (r: seq<Request>)
    requires Indices(order, |requests|)
    ensures |r| == |order| && forall k :: 0 <= k < |r| ==> r[k] == requests[order[k]]
  {
    seq(|order|, k requires 0 <= k < |order| => requests[order[k]])
  }

  lemma {:induction false} SerialShows(faults: Faults, l: Layout, requests: seq<Request>, disk: Disk, st: Install,
                                       order: seq<nat>)
    requires DistinctPair(l) && Shows(l, disk.files, st)
    requires forall k :: 0 <= k < |requests| ==> WellPlaced(l, requests[k])
    requires Indices(order, |requests|)
    requires forall n :: !faults(n)
    ensures Shows(l, Serial(faults, Programs(l, requests), disk, order).files, After(st, InOrder(requests, order)))
  {
    hide ProgramOf, Exec, Next, Shows, WellPlaced, DistinctPair;
    if order != [] {
      var last := |order| - 1;
      SerialShows(faults, l, requests, disk, st, order[..last]);
      assert InOrder(requests, order)[..last] == InOrder(requests, order[..last]);
      RequestShows(faults, l, requests[order[last]], Serial(faults, Programs(l, requests), disk, order[..last]),
                   After(st, InOrder(requests, order[..last])));
    }
  }

  /**
   * Every run without file-system faults, under every interleaving: whenever the lock is free, the
   * files show what the one-level undo model holds after the requests in lock order, and each
   * request that got the lock succeeded exactly if the model accepts it there. In particular the two
   * live binaries belong to one release, and so do the two backups.
   */
  lemma RunsRefineUndo(faults: Faults, l: Layout, requests: seq<Request>, disk: Disk, st: Install, schedule: seq<nat>)
    requires DistinctPair(l) && Shows(l, disk.files, st)
    requires forall k :: 0 <= k < |requests| ==> WellPlaced(l, requests[k])
    requires forall n :: !faults(n)
    ensures var s := Run(faults, Programs(l, requests), Initial(disk, |requests|), schedule);
            s.holder.None? ==>
              && Indices(s.order, |requests|)
              && Shows(l, s.disk.files, After(st, InOrder(requests, s.order)))
              && forall k :: 0 <= k < |s.order| ==>
                   && s.handlers[s.order[k]].Answered?
                   && (s.handlers[s.order[k]].outcome == Ok <==>
                         Accepted(After(st, InOrder(requests, s.order)[..k]), requests[s.order[k]]))
  {
    hide Exec, Serial, Shows, Accepted, After, ProgramOf, Run, WellPlaced, DistinctPair;
    var programs := Programs(l, requests);
    var s := Run(faults, programs, Initial(disk, |requests|), schedule);
    Serialisable(faults, programs, disk, schedule);
    if s.holder.None? {
      SerialShows(faults, l, requests, disk, st, s.order);
      forall k | 0 <= k < |s.order|
        ensures s.handlers[s.order[k]].Answered?
        ensures s.handlers[s.order[k]].outcome == Ok <==>
                Accepted(After(st, InOrder(requests, s.order)[..k]), requests[s.order[k]])
      {
        SerialShows(faults, l, requests, disk, st, s.order[..k]);
        assert InOrder(requests, s.order)[..k] == InOrder(requests, s.order[..k]);
        RequestShows(faults, l, requests[s.order[k]], Serial(faults, programs, disk, s.order[..k]),
                     After(st, InOrder(requests, s.order[..k])));
      }
    }
  }

  // --------------------------------------------------- what the model promises

  lemma {:induction false} RefusedChangeNothing(st: Install, requests: seq<Request>)
    requires forall k :: 0 <= k < |requests| ==> !Accepted(After(st, requests[..k]), requests[k])
    ensures After(st, requests) == st
  {
    if requests != [] {
      var last := |requests| - 1;
      forall k | 0 <= k < last ensures !Accepted(After(st, requests[..last][..k]), requests[..last][k]) {
        assert requests[..last][..k] == requests[..k];
      }
      RefusedChangeNothing(st, requests[..last]);
    }
  }

  lemma {:induction false} AfterAppend(st: Install, a: seq<Request>, b: seq<Request>)
    ensures After(st, a + b) == After(After(st, a), b)
  {
    hide Next;
    if b == [] {
      assert a + b == a;
    } else {
      assert (a + b)[..|a + b| - 1] == a + b[..|b| - 1];
      AfterAppend(st, a, b[..|b| - 1]);
    }
  }

  /**
   * After an accepted update and any number of refused requests, the backups are exactly the pair
   * that was live before that update; a rollback makes that pair live again and uses the backups
   * up; and any further rollback is refused and changes nothing.
   */
  lemma RollbackUndoesLatestUpdate(st: Install, earlier: seq<Request>, update: Request, refused: seq<Request>,
                                   rollback: Request, again: Request)
    requires update.Update? && Accepted(After(st, earlier), update)
    requires forall k :: 0 <= k < |refused| ==>
               !Accepted(After(Next(After(st, earlier), update), refused[..k]), refused[k])
    requires rollback == RollBack(true) && again.RollBack?
    ensures var before := After(st, earlier).live;
            var updated := After(st, earlier + [update] + refused);
            && updated == Install(update.release, Some(before))
            && After(st, earlier + [update] + refused + [rollback]) == Install(before, None)
            && !Accepted(Install(before, None), again)
            && After(st, earlier + [update] + refused + [rollback, again]) == Install(before, None)
  {
    hide Newer, After;
    AfterOne(After(st, earlier), update);
    AfterAppend(st, earlier, [update]);
    AfterAppend(st, earlier + [update], refused);
    RefusedChangeNothing(After(st, earlier + [update]), refused);
    var updated := After(st, earlier + [update] + refused);
    AfterAppend(st, earlier + [update] + refused, [rollback]);
    AfterOne(updated, rollback);
    var whole := earlier + [update] + refused + [rollback];
    AfterAppend(st, whole, [again]);
    AfterOne(After(st, whole), again);
    assert earlier + [update] + refused + [rollback, again] == whole + [again];
  }

  lemma AfterOne(st: Install, request: Request)
    ensures After(st, [request]) == Next(st, request)
  {
    assert [request][..0] == [];
  }

  /** Asked while the lock is free, the backup check predicts whether the next rollback succeeds. */
  lemma BackupCheckPredictsRollback(faults: Faults, l: Layout, disk: Disk, st: Install)
    requires DistinctPair(l) && Shows(l, disk.files, st) && forall n :: !faults(n)
    ensures HasBackups(l, disk.files) <==> Exec(faults, ProgramOf(l, RollBack(true)), disk).outcome == Ok
  {
    hide Exec, ProgramOf;
    RequestShows(faults, l, RollBack(true), disk, st);
  }

  // --------------------------------------------------- requests under faults

  /** The live pair is of one release, and a backup pair, if there is one, is the one remembered. */
  predicate Sees(l: Layout, files: Files, st: Install) {
    && Holds(files, l.webCurrent, st.live.web)
    && Holds(files, l.serviceCurrent, st.live.service)
    && (HasBackups(l, files) ==>
          && st.backup.Some?
          && Holds(files, l.webBackup, st.backup.value.web) && Holds(files, l.serviceBackup, st.backup.value.service))
  }

  /** What to remember after an answer. */
  function Answer(st: Install, request: Request, outcome: Outcome): Install {
    if outcome == Ok && (request.RollBack? ==> st.backup.Some?) then Applied(st, request) else st
  }

  /**
   * No half-done work is left behind: a failed update made its restoring renames, and a failed
   * rollback made its own before the web half was swapped.
   */
  ghost predicate Whole(faults: Faults, l: Layout, request: Request, disk: Disk) {
    var r := Exec(faults, ProgramOf(l, request), disk);
    r.outcome != Ok ==>
      match request
      case Update(_, _, _, _, _) => AllOk(disk, r.disk, Restores(l))
      case RollBack(eligible) =>
        eligible && HasBackups(l, disk.files) ==>
          Exec(faults, SwapBackWeb(l, Done(Ok)), disk).outcome != Ok && AllOk(disk, r.disk, RollbackRestores(l))
  }

  lemma FaultyUpdate(faults: Faults, l: Layout, request: Request, disk: Disk, st: Install)
    requires request.Update? && WellPlaced(l, request) && Sees(l, disk.files, st) && Whole(faults, l, request, disk)
    ensures var r := Exec(faults, ProgramOf(l, request), disk); Sees(l, r.disk.files, Answer(st, request, r.outcome))
  {
    hide ReplacePair, Unpack, ProgramOf, Newer;
    var Update(eligible, offer, webNew, serviceNew, release) := request;
    if eligible && Newer(offer) && offer.fetched {
      UnpackRuns(faults, l, webNew, serviceNew, release, disk);
      var d1 := Perform(faults, disk, Write(webNew, release.web));
      var d2 := Perform(faults, d1, Write(serviceNew, release.service));
      ReplaceIsAllOrNothing(faults, l, webNew, serviceNew, d2);
      UpdateUnpacks(faults, l, request, disk);
    } else {
      NotAccepted(faults, l, request, disk);
    }
  }

  lemma FaultyRollBack(faults: Faults, l: Layout, request: Request, disk: Disk, st: Install)
    requires request.RollBack? && DistinctPair(l) && Sees(l, disk.files, st) && Whole(faults, l, request, disk)
    ensures var r := Exec(faults, ProgramOf(l, request), disk); Sees(l, r.disk.files, Answer(st, request, r.outcome))
  {
    hide Exec, Rollback, SwapBackWeb;
    RollbackOutcome(faults, l, disk);
    ExecDone(faults, Err("rollback not supported"), disk);
  }

  /** The installation after the requests in this order, each taken at its answer. */
  function Remembered(faults: Faults, l: Layout, requests: seq<Request>, disk: Disk, st: Install,
                      order: seq<nat>): Install
    requires Indices(order, |requests|)
  {
    if order == [] then st
    else
      var last := |order| - 1;
      Answer(Remembered(faults, l, requests, disk, st, order[..last]), requests[order[last]],
             SerialOutcome(faults, Programs(l, requests), disk, order, last))
  }

  ghost predicate WholeRun(faults: Faults, l: Layout, requests: seq<Request>, disk: Disk, order: seq<nat>)
    requires Indices(order, |requests|)
  {
    forall k :: 0 <= k < |order| ==>
      Whole(faults, l, requests[order[k]], Serial(faults, Programs(l, requests), disk, order[..k]))
  }

  lemma WholePrefix(faults: Faults, l: Layout, requests: seq<Request>, disk: Disk, order: seq<nat>)
    requires Indices(order, |requests|) && order != [] && WholeRun(faults, l, requests, disk, order)
    ensures WholeRun(faults, l, requests, disk, order[..|order| - 1])
  {
    hide Whole, Serial;
    var prefix := order[..|order| - 1];
    forall k | 0 <= k < |prefix|
      ensures Whole(faults, l, requests[prefix[k]], Serial(faults, Programs(l, requests), disk, prefix[..k]))
    {
      assert prefix[..k] == order[..k] && prefix[k] == order[k];
    }
  }

  lemma {:induction false} FaultySerial(faults: Faults, l: Layout, requests: seq<Request>, disk: Disk, st: Install,
                                        order: seq<nat>)
    requires DistinctPair(l) && Indices(order, |requests|) && WholeRun(faults, l, requests, disk, order)
    requires forall k :: 0 <= k < |requests| ==> WellPlaced(l, requests[k])
    requires Sees(l, disk.files, st)
    ensures Sees(l, Serial(faults, Programs(l, requests), disk, order).files,
                 Remembered(faults, l, requests, disk, st, order))
  {
    hide Exec, ProgramOf, Whole, WellPlaced, DistinctPair, Sees, Answer;
    if order != [] {
      var last := |order| - 1;
      var request, before := requests[order[last]], Serial(faults, Programs(l, requests), disk, order[..last]);
      WholePrefix(faults, l, requests, disk, order);
      FaultySerial(faults, l, requests, disk, st, order[..last]);
      if request.Update? {
        FaultyUpdate(faults, l, request, before, Remembered(faults, l, requests, disk, st, order[..last]));
      } else {
        FaultyRollBack(faults, l, request, before, Remembered(faults, l, requests, disk, st, order[..last]));
      }
    }
  }

  /**
   * Updates and rollbacks under any faults and any interleaving: as long as no request left half-done
   * work, the live pair, seen while the lock is free, is that of the last request that answered Ok,
   * and a backup pair that is there is the one live before the last update that answered Ok.
   */
  lemma FaultyRunsKeepOneRelease(faults: Faults, l: Layout, requests: seq<Request>, disk: Disk, st: Install,
                                 schedule: seq<nat>)
    requires DistinctPair(l) && Sees(l, disk.files, st)
    requires forall k :: 0 <= k < |requests| ==> WellPlaced(l, requests[k])
    ensures var s := Run(faults, Programs(l, requests), Initial(disk, |requests|), schedule);
            s.holder.None? ==>
              && Indices(s.order, |requests|)
              && (WholeRun(faults, l, requests, disk, s.order) ==>
                    Sees(l, s.disk.files, Remembered(faults, l, requests, disk, st, s.order)))
  {
    hide Exec, Serial, Run, WholeRun, Sees, WellPlaced, DistinctPair, Remembered;
    var s := Run(faults, Programs(l, requests), Initial(disk, |requests|), schedule);
    Serialisable(faults, Programs(l, requests), disk, schedule);
    if s.holder.None? && WholeRun(faults, l, requests, disk, s.order) {
      FaultySerial(faults, l, requests, disk, st, s.order);
    }
  }

  lemma AllOkSplits(a: Disk, b: Disk, c: Disk, calls: set<Call>)
    requires Extends(b, a) && Extends(c, b) && AllOk(a, c, calls)
    ensures AllOk(a, b, calls) && AllOk(b, c, calls)
  {
  }

  lemma {:induction false} SerialExtends(faults: Faults, programs: seq<Program>, disk: Disk, order: seq<nat>)
    requires Indices(order, |programs|)
    ensures Extends(Serial(faults, programs, disk, order), disk)
  {
    hide Exec;
    if order != [] {
      var last := |order| - 1;
      SerialExtends(faults, programs, disk, order[..last]);
      ExecExtends(faults, programs[order[last]], Serial(faults, programs, disk, order[..last]));
    }
  }

  /** For updates alone it is enough that no restoring rename failed anywhere in the history. */
  lemma {:induction false} UpdatesAreWhole(faults: Faults, l: Layout, requests: seq<Request>, disk: Disk,
                                           order: seq<nat>)
    requires Indices(order, |requests|) && forall k :: 0 <= k < |requests| ==> requests[k].Update?
    requires AllOk(disk, Serial(faults, Programs(l, requests), disk, order), Restores(l))
    ensures WholeRun(faults, l, requests, disk, order)
  {
    hide Exec, ProgramOf, AllOk, Extends;
    if order != [] {
      var last, programs := |order| - 1, Programs(l, requests);
      var before := Serial(faults, programs, disk, order[..last]);
      SerialExtends(faults, programs, disk, order[..last]);
      ExecExtends(faults, programs[order[last]], before);
      AllOkSplits(disk, before, Serial(faults, programs, disk, order), Restores(l));
      UpdatesAreWhole(faults, l, requests, disk, order[..last]);
      forall k | 0 <= k < |order|
        ensures Whole(faults, l, requests[order[k]], Serial(faults, programs, disk, order[..k]))
      {
        if k < last { assert order[..last][..k] == order[..k]; }
      }
    }
  }

  // ---------------------------------------------- what one update may cost

  /** The update gets as far as replacing the pair. */
  predicate Replaces(faults: Faults, l: Layout, request: Request, disk: Disk)
    requires request.Update?
  {
    && request.eligible && Newer(request.offer) && request.offer.fetched && l.serviceCurrent in disk.files
    && !faults(|disk.events|) && !faults(|disk.events| + 1)
  }

  /** The disk with both binaries unpacked. */
  function Unpacked(faults: Faults, request: Request, disk: Disk): Disk
    requires request.Update?
  {
    Perform(faults, Perform(faults, disk, Write(request.webNew, request.release.web)),
            Write(request.serviceNew, request.release.service))
  }

  lemma UpdateIs(faults: Faults, l: Layout, request: Request, disk: Disk)
    requires request.Update? && WellPlaced(l, request)
    ensures var r := Exec(faults, ProgramOf(l, request), disk);
            if Replaces(faults, l, request, disk) then
              var d := Unpacked(faults, request, disk);
              && r == Exec(faults, ReplacePair(l, request.webNew, request.serviceNew), d)
              && |d.events| == |disk.events| + 2
                && SameOutside({request.webNew, request.serviceNew}, disk.files, d.files)
              && Extends(d, disk)
            else
              r.outcome != Ok && SameOutside({request.webNew, request.serviceNew}, disk.files, r.disk.files)
  {
    hide ReplacePair, Unpack, ProgramOf, Newer;
    if !(request.eligible && Newer(request.offer) && request.offer.fetched) {
      NotAccepted(faults, l, request, disk);
    } else if l.serviceCurrent !in disk.files {
      NoSibling(faults, l, request, disk);
    } else {
      UpdateUnpacks(faults, l, request, disk);
      UnpackRuns(faults, l, request.webNew, request.serviceNew, request.release, disk);
    }
  }

  lemma NoSibling(faults: Faults, l: Layout, request: Request, disk: Disk)
    requires request.Update? && l.serviceCurrent !in disk.files
    ensures var r := Exec(faults, ProgramOf(l, request), disk); r.outcome != Ok && r.disk == disk
  {
    hide Unpack, Newer;
    ExecDone(faults, Err("self-update not supported"), disk);
    ExecDone(faults, Err("no release found"), disk);
    ExecDone(faults, Err("already up to date"), disk);
    ExecDone(faults, Err("missing sibling service binary"), disk);
  }

  /**
   * What a failed update does to the way back, when every restore worked: a backup pair is still there
   * exactly if there was one, and the update did not get as far as the replacement, or the three calls
   * that clear the backups away failed too.
   */
  lemma FailedUpdateForgetsBackups(faults: Faults, l: Layout, request: Request, disk: Disk)
    requires request.Update? && WellPlaced(l, request)
    ensures var r, n := Exec(faults, ProgramOf(l, request), disk), |disk.events|;
            r.outcome != Ok && AllOk(disk, r.disk, Restores(l)) ==>
              (HasBackups(l, r.disk.files) <==>
                 && HasBackups(l, disk.files)
                 && (Replaces(faults, l, request, disk) ==>
                       faults(n + 2) && faults(n + 3) && (l.webCurrent !in disk.files || faults(n + 4))))
  {
    hide Exec, ReplacePair, ProgramOf, Replaces, Unpacked;
    UpdateIs(faults, l, request, disk);
    if Replaces(faults, l, request, disk) {
      FailureForgetsBackups(faults, l, request.webNew, request.serviceNew, Unpacked(faults, request, disk));
    }
  }

  /** No update loses the last service binary, whatever fails: without a live one the sibling check stops it. */
  lemma UpdateKeepsLastService(faults: Faults, l: Layout, request: Request, disk: Disk)
    requires request.Update? && WellPlaced(l, request)
    requires l.serviceCurrent in disk.files || l.serviceBackup in disk.files
    ensures Kept(Exec(faults, ProgramOf(l, request), disk).disk.files, l.serviceCurrent, l.serviceBackup,
                 LastService(l, disk.files))
  {
    hide Exec, ReplacePair, ProgramOf, Unpacked, Newer;
    UpdateIs(faults, l, request, disk);
    if Replaces(faults, l, request, disk) {
      LastServiceSurvives(faults, l, request.webNew, request.serviceNew, Unpacked(faults, request, disk));
    }
  }

  /** The last web binary has no such check, and is kept under an exact condition only. */
  lemma UpdateKeepsLastWeb(faults: Faults, l: Layout, request: Request, disk: Disk)
    requires request.Update? && WellPlaced(l, request)
    requires l.webCurrent in disk.files || l.webBackup in disk.files
    ensures var files := Exec(faults, ProgramOf(l, request), disk).disk.files;
            Kept(files, l.webCurrent, l.webBackup, LastWeb(l, disk.files)) <==>
              !Replaces(faults, l, request, disk) || l.webCurrent in disk.files || faults(|disk.events| + 2)
  {
    hide Exec, ReplacePair, ProgramOf, Replaces, Unpacked;
    UpdateIs(faults, l, request, disk);
    if Replaces(faults, l, request, disk) {
      LastWebSurvives(faults, l, request.webNew, request.serviceNew, Unpacked(faults, request, disk));
    }
  }

  /** The body of the update handler, run by whoever holds the lock. */
  method PerformUpdate(fs: FileSystem, l: Layout, eligible: bool, offer: Offer, webNew: Path, serviceNew: Path,
                       release: Release)
    returns (r: Outcome)
    modifies fs
    ensures Finished(r, fs.Snapshot()) ==
            Exec(fs.faults, ProgramOf(l, Update(eligible, offer, webNew, serviceNew, release)), old(fs.Snapshot()))
  {
    hide ReplacePair, UpdateVersions.ParseVersion, UpdateVersions.Compare, UpdateVersions.NormalizeVersion;
    if !eligible {
      return Err("self-update not supported");
    }
    if offer.latest.None? {
      return Err("no release found");
    }
    var current := UpdateVersions.NormalizeVersion(offer.current);
    var latest := UpdateVersions.NormalizeVersion(offer.latest.value);
    var order := UpdateVersions.CompareVersions(current, latest);
    if order >= 0 {
      return Err("already up to date");
    }
    if l.serviceCurrent !in fs.files {
      return Err("missing sibling service binary");
    }
    if !offer.fetched {
      return Err("download failed");
    }
    UnpackRuns(fs.faults, l, webNew, serviceNew, release, fs.Snapshot());
    var ok := fs.Invoke(Write(webNew, release.web));
    if !ok {
      return Err("write failed");
    }
    ok := fs.Invoke(Write(serviceNew, release.service));
    if !ok {
      return Err("write failed");
    }
    r := ReplaceBinaryPair(fs, l, webNew, serviceNew);
  }
}
