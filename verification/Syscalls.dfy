/** A file system whose every call may fail, and straight-line programs of such calls. */
module Syscalls {

  type Path = string
  newtype Byte = x: int | 0 <= x < 256
  type Bytes = seq<Byte>
  type Files = map<Path, Bytes>

  datatype Call =
    | Remove(path: Path)
    | Rename(from: Path, to: Path)
    | Write(path: Path, bytes: Bytes)

  datatype Event = Event(call: Call, ok: bool)

  /** `faults(n)` says that the n-th call ever made fails, whatever it asks for. */
  type Faults = nat -> bool

  datatype Disk = Disk(files: Files, events: seq<Event>)

  predicate Possible(files: Files, call: Call) {
    match call
    case Remove(path) => path in files
    case Rename(from, _) => from in files
    case Write(_, _) => true
  }

  /** A rename is atomic and replaces its target. */
  function Effect(files: Files, call: Call): Files
    requires Possible(files, call)
  {
    match call
    case Remove(path) => files - {path}
    case Rename(from, to) => (files - {from})[to := files[from]]
    case Write(path, bytes) => files[path := bytes]
  }

  predicate Succeeds(faults: Faults, disk: Disk, call: Call) {
    Possible(disk.files, call) && !faults(|disk.events|)
  }

  function Perform(faults: Faults, disk: Disk, call: Call): Disk {
    if Succeeds(faults, disk, call) then Disk(Effect(disk.files, call), disk.events + [Event(call, true)])
    else disk.(events := disk.events + [Event(call, false)])
  }

  datatype Outcome = Ok | Err(message: string)

  /** What a blocking handler does: calls, each with the continuation its outcome selects. */
  datatype Program =
    | Done(outcome: Outcome)
    | Do(call: Call, ifOk: Program, ifErr: Program)
    | IsFile(path: Path, yes: Program, no: Program)

  /** A call whose outcome is discarded. */
  function Attempt(call: Call, next: Program): Program {
    Do(call, next, next)
  }

  function Step(faults: Faults, program: Program, disk: Disk): (Program, Disk)
    requires !program.Done?
  {
    match program
    case Do(call, ifOk, ifErr) =>
      (if Succeeds(faults, disk, call) then ifOk else ifErr, Perform(faults, disk, call))
    case IsFile(path, yes, no) => (if path in disk.files then yes else no, disk)
  }

  datatype Finished = Finished(outcome: Outcome, disk: Disk)

  /** Running to the end without interruption. */
  function Exec(faults: Faults, program: Program, disk: Disk): Finished {
    match program
    case Done(outcome) => Finished(outcome, disk)
    case Do(call, ifOk, ifErr) =>
      Exec(faults, if Succeeds(faults, disk, call) then ifOk else ifErr, Perform(faults, disk, call))
    case IsFile(path, yes, no) => Exec(faults, if path in disk.files then yes else no, disk)
  }

  lemma ExecDone(faults: Faults, outcome: Outcome, disk: Disk)
    ensures Exec(faults, Done(outcome), disk) == Finished(outcome, disk)
  {
  }

  predicate Holds(files: Files, path: Path, bytes: Bytes) {
    path in files && files[path] == bytes
  }

  /** The calls made between two points of one history. */
  ghost predicate AllOk(since: Disk, until: Disk, calls: set<Call>) {
    forall k :: |since.events| <= k < |until.events| && until.events[k].call in calls ==> until.events[k].ok
  }

  predicate Extends(later: Disk, earlier: Disk) {
    earlier.events <= later.events
  }

  lemma {:induction false} ExecExtends(faults: Faults, program: Program, disk: Disk)
    ensures Extends(Exec(faults, program, disk).disk, disk)
  {
    match program
    case Done(_) =>
    case Do(call, ifOk, ifErr) =>
      ExecExtends(faults, if Succeeds(faults, disk, call) then ifOk else ifErr, Perform(faults, disk, call));
    case IsFile(path, yes, no) =>
      ExecExtends(faults, if path in disk.files then yes else no, disk);
  }

  /** The operating system as the handlers see it. */
  class FileSystem {
    var files: Files
    var events: seq<Event>
    const faults: Faults

    constructor (files: Files, faults: Faults)
      ensures this.files == files && events == [] && this.faults == faults
    {
      this.files, this.events, this.faults := files, [], faults;
    }

    function Snapshot(): Disk
      reads this
    {
      Disk(files, events)
    }

    method Invoke(call: Call) returns (ok: bool)
      modifies this
      ensures Snapshot() == Perform(faults, old(Snapshot()), call)
      ensures ok == Succeeds(faults, old(Snapshot()), call)
    {
      ok := Possible(files, call) && !faults(|events|);
      if ok {
        files := Effect(files, call);
      }
      events := events + [Event(call, ok)];
    }
  }
}
