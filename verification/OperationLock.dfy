/** Handlers that take one lock, run a program of file-system calls call by call, and release it. */
module OperationLock {
  import opened Text
  import opened Syscalls

  datatype Handler = Waiting | Running(program: Program) | Answered(outcome: Outcome)

  /** `order` lists the handlers in the order in which they got the lock. */
  datatype System = System(disk: Disk, holder: Option<nat>, handlers: seq<Handler>, order: seq<nat>)

  function Initial(disk: Disk, count: nat): System {
    System(disk, None, seq(count, _ => Waiting), [])
  }

  /** The scheduler lets handler `i` do one thing: take the lock, make one call, or finish and release. */
  function Turn(faults: Faults, programs: seq<Program>, s: System, i: nat): System
    requires |s.handlers| == |programs|
    ensures |Turn(faults, programs, s, i).handlers| == |programs|
  {
    if i >= |programs| then s
    else match s.handlers[i]
      case Waiting =>
        if s.holder.Some? then s
        else s.(holder := Some(i), handlers := s.handlers[i := Running(programs[i])], order := s.order + [i])
      case Running(program) =>
        if program.Done? then s.(holder := None, handlers := s.handlers[i := Answered(program.outcome)])
        else
          var (rest, disk) := Step(faults, program, s.disk);
          s.(disk := disk, handlers := s.handlers[i := Running(rest)])
      case Answered(_) => s
  }

  function Run(faults: Faults, programs: seq<Program>, s: System, schedule: seq<nat>): (r: System)
    requires |s.handlers| == |programs|
    ensures |r.handlers| == |programs|
  {
    if schedule == [] then s
    else
      var before := Run(faults, programs, s, schedule[..|schedule| - 1]);
      Turn(faults, programs, before, schedule[|schedule| - 1])
  }

  predicate Indices(order: seq<nat>, count: nat) {
    forall k :: 0 <= k < |order| ==> order[k] < count
  }

  /** The same programs one after the other, each run without interruption. */
  function Serial(faults: Faults, programs: seq<Program>, disk: Disk, order: seq<nat>): Disk
    requires Indices(order, |programs|)
  {
    if order == [] then disk
    else
      var last := |order| - 1;
      Exec(faults, programs[order[last]], Serial(faults, programs, disk, order[..last])).disk
  }

  function SerialOutcome(faults: Faults, programs: seq<Program>, disk: Disk, order: seq<nat>, k: nat): Outcome
    requires Indices(order, |programs|) && k < |order|
  {
    Exec(faults, programs[order[k]], Serial(faults, programs, disk, order[..k])).outcome
  }

  ghost predicate Completed(faults: Faults, programs: seq<Program>, disk: Disk, s: System, count: nat)
    requires |s.handlers| == |programs| && Indices(s.order, |programs|) && count <= |s.order|
  {
    forall k :: 0 <= k < count ==>
      s.handlers[s.order[k]] == Answered(SerialOutcome(faults, programs, disk, s.order, k))
  }

  /** The run so far is the serial run in lock order, with at most its last program still under way. */
  ghost predicate SerialSoFar(faults: Faults, programs: seq<Program>, disk: Disk, s: System) {
    && |s.handlers| == |programs|
    && Indices(s.order, |programs|)
    && (forall j, k :: 0 <= j < k < |s.order| ==> s.order[j] != s.order[k])
    && (forall i: nat :: i < |programs| && i !in s.order ==> s.handlers[i] == Waiting)
    && match s.holder
       case None =>
         && s.disk == Serial(faults, programs, disk, s.order)
         && Completed(faults, programs, disk, s, |s.order|)
       case Some(i) =>
         && s.order != [] && i == s.order[|s.order| - 1]
         && s.handlers[i].Running?
         && Exec(faults, s.handlers[i].program, s.disk)
            == Exec(faults, programs[i], Serial(faults, programs, disk, s.order[..|s.order| - 1]))
         && Completed(faults, programs, disk, s, |s.order| - 1)
  }

  lemma OutcomeOfPrefix(faults: Faults, programs: seq<Program>, disk: Disk, order: seq<nat>, i: nat, k: nat)
    requires Indices(order, |programs|) && i < |programs| && k < |order|
    ensures Indices(order + [i], |programs|)
    ensures SerialOutcome(faults, programs, disk, order + [i], k) == SerialOutcome(faults, programs, disk, order, k)
  {
    hide Exec, Serial;
    assert (order + [i])[..k] == order[..k];
  }

  lemma AcquireSerial(faults: Faults, programs: seq<Program>, disk: Disk, s: System, i: nat)
    requires SerialSoFar(faults, programs, disk, s) && i < |programs| && s.handlers[i].Waiting?
    ensures SerialSoFar(faults, programs, disk, Turn(faults, programs, s, i))
  {
    hide Exec, Serial, SerialOutcome;
    if s.holder.None? {
      var t := Turn(faults, programs, s, i);
      assert t.order[..|s.order|] == s.order;
      assert i !in s.order;
      forall k | 0 <= k < |s.order|
        ensures t.handlers[t.order[k]] == Answered(SerialOutcome(faults, programs, disk, t.order, k))
      {
        OutcomeOfPrefix(faults, programs, disk, s.order, i, k);
      }
      forall n: nat | n < |programs| && n !in t.order ensures t.handlers[n] == Waiting {
        assert n != i && n !in s.order;
      }
    }
  }

  lemma StepSerial(faults: Faults, programs: seq<Program>, disk: Disk, s: System, i: nat)
    requires SerialSoFar(faults, programs, disk, s) && i < |programs| && s.handlers[i].Running?
    ensures SerialSoFar(faults, programs, disk, Turn(faults, programs, s, i))
  {
    hide Serial;
    var t := Turn(faults, programs, s, i);
    assert s.holder == Some(i) by {
      assert i in s.order;
      var k :| 0 <= k < |s.order| && s.order[k] == i;
      assert s.handlers[s.order[k]].Running?;
    }
    forall k | 0 <= k < |s.order| - 1
      ensures t.handlers[t.order[k]] == Answered(SerialOutcome(faults, programs, disk, t.order, k))
    {
      assert s.order[k] != i;
    }
    if s.handlers[i].program.Done? {
      var last := |s.order| - 1;
      SerialLast(faults, programs, disk, s.order);
      ExecDone(faults, s.handlers[i].program.outcome, s.disk);
      assert t.handlers[t.order[last]] == Answered(SerialOutcome(faults, programs, disk, t.order, last));
    }
  }

  lemma SerialLast(faults: Faults, programs: seq<Program>, disk: Disk, order: seq<nat>)
    requires Indices(order, |programs|) && order != []
    ensures var last := |order| - 1;
            Serial(faults, programs, disk, order)
            == Exec(faults, programs[order[last]], Serial(faults, programs, disk, order[..last])).disk
  {
  }

  lemma {:induction false} RunIsSerial(faults: Faults, programs: seq<Program>, disk: Disk, schedule: seq<nat>)
    ensures SerialSoFar(faults, programs, disk, Run(faults, programs, Initial(disk, |programs|), schedule))
  {
    hide SerialSoFar, Turn;
    if schedule == [] {
      InitialSerial(faults, programs, disk);
    } else {
      RunIsSerial(faults, programs, disk, schedule[..|schedule| - 1]);
      var s := Run(faults, programs, Initial(disk, |programs|), schedule[..|schedule| - 1]);
      var i := schedule[|schedule| - 1];
      TurnSerial(faults, programs, disk, s, i);
    }
  }

  lemma InitialSerial(faults: Faults, programs: seq<Program>, disk: Disk)
    ensures SerialSoFar(faults, programs, disk, Initial(disk, |programs|))
  {
  }

  lemma TurnSerial(faults: Faults, programs: seq<Program>, disk: Disk, s: System, i: nat)
    requires SerialSoFar(faults, programs, disk, s)
    ensures SerialSoFar(faults, programs, disk, Turn(faults, programs, s, i))
  {
    if i < |programs| && s.handlers[i].Waiting? {
      AcquireSerial(faults, programs, disk, s, i);
    } else if i < |programs| && s.handlers[i].Running? {
      StepSerial(faults, programs, disk, s, i);
    }
  }

  /**
   * Serialisability: under every schedule, whenever the lock is free the disk is what the programs
   * leave when run one after the other in the order of their locks, and every handler that got the
   * lock has answered what it would have answered then.
   */
  lemma Serialisable(faults: Faults, programs: seq<Program>, disk: Disk, schedule: seq<nat>)
    ensures var s := Run(faults, programs, Initial(disk, |programs|), schedule);
            s.holder.None? ==>
              && Indices(s.order, |programs|)
              && s.disk == Serial(faults, programs, disk, s.order)
              && (forall k :: 0 <= k < |s.order| ==>
                    s.handlers[s.order[k]] == Answered(SerialOutcome(faults, programs, disk, s.order, k)))
  {
    RunIsSerial(faults, programs, disk, schedule);
  }

  /** No reachable state is stuck: while a handler has not answered, somebody can move. */
  lemma NoDeadlock(faults: Faults, programs: seq<Program>, disk: Disk, schedule: seq<nat>)
    ensures var s := Run(faults, programs, Initial(disk, |programs|), schedule);
            (forall i :: 0 <= i < |programs| ==> s.handlers[i].Answered?)
            || exists i: nat :: i < |programs| && Turn(faults, programs, s, i) != s
  {
    var s := Run(faults, programs, Initial(disk, |programs|), schedule);
    RunIsSerial(faults, programs, disk, schedule);
    if i: nat :| i < |programs| && !s.handlers[i].Answered? {
      var mover := if s.holder.Some? then s.holder.value else i;
      if s.holder.Some? {
        MoverMoves(faults, programs, s, mover);
      } else {
        assert s.handlers[i].Waiting?;
        assert Turn(faults, programs, s, i).holder == Some(i);
      }
      assert Turn(faults, programs, s, mover) != s;
    }
  }

  lemma MoverMoves(faults: Faults, programs: seq<Program>, s: System, i: nat)
    requires |s.handlers| == |programs| && i < |programs| && s.handlers[i].Running?
    ensures Turn(faults, programs, s, i) != s
  {
    var program := s.handlers[i].program;
    var t := Turn(faults, programs, s, i);
    if !program.Done? {
      assert t.handlers[i].program < program;
    }
    assert t.handlers[i] != s.handlers[i];
  }

  // ----------------------------------------------------------- runs end

  /** The most steps a program can still make. */
  function Depth(program: Program): nat {
    match program
    case Done(_) => 0
    case Do(_, ifOk, ifErr) => 1 + Larger(Depth(ifOk), Depth(ifErr))
    case IsFile(_, yes, no) => 1 + Larger(Depth(yes), Depth(no))
  }

  function Larger(a: nat, b: nat): nat {
    if a >= b then a else b
  }

  /** The most turns a handler still needs: taking the lock, its steps, and answering. */
  function Need(program: Program, handler: Handler): nat {
    match handler
    case Waiting => Depth(program) + 2
    case Running(rest) => Depth(rest) + 1
    case Answered(_) => 0
  }

  function TotalNeed(programs: seq<Program>, handlers: seq<Handler>): nat
    requires |handlers| == |programs|
  {
    if handlers == [] then 0 else Need(programs[0], handlers[0]) + TotalNeed(programs[1..], handlers[1..])
  }

  lemma {:induction false} NeedUpdate(programs: seq<Program>, handlers: seq<Handler>, i: nat, handler: Handler)
    requires |handlers| == |programs| && i < |handlers|
    ensures TotalNeed(programs, handlers[i := handler]) + Need(programs[i], handlers[i])
         == TotalNeed(programs, handlers) + Need(programs[i], handler)
  {
    if i > 0 {
      NeedUpdate(programs[1..], handlers[1..], i - 1, handler);
      assert handlers[i := handler][1..] == handlers[1..][i - 1 := handler];
    }
  }

  /** Every turn that does anything uses up some of what is needed. */
  lemma TurnCosts(faults: Faults, programs: seq<Program>, s: System, i: nat)
    requires |s.handlers| == |programs|
    ensures var t := Turn(faults, programs, s, i);
            t == s || TotalNeed(programs, t.handlers) < TotalNeed(programs, s.handlers)
  {
    hide TotalNeed;
    if i < |programs| {
      var t := Turn(faults, programs, s, i);
      NeedUpdate(programs, s.handlers, i, t.handlers[i]);
    }
  }

  lemma RunSnoc(faults: Faults, programs: seq<Program>, s: System, schedule: seq<nat>, i: nat)
    requires |s.handlers| == |programs|
    ensures Run(faults, programs, s, schedule + [i]) == Turn(faults, programs, Run(faults, programs, s, schedule), i)
  {
    assert (schedule + [i])[..|schedule|] == schedule;
  }

  lemma {:induction false} RunAppend(faults: Faults, programs: seq<Program>, s: System, a: seq<nat>, b: seq<nat>)
    requires |s.handlers| == |programs|
    ensures Run(faults, programs, s, a + b) == Run(faults, programs, Run(faults, programs, s, a), b)
  {
    hide Turn;
    if b == [] {
      assert a + b == a;
    } else {
      var last := |b| - 1;
      RunAppend(faults, programs, s, a, b[..last]);
      assert a + b == (a + b[..last]) + [b[last]];
      RunSnoc(faults, programs, s, a + b[..last], b[last]);
    }
  }

  /** A stretch of turns that leaves less to do, or else changed nothing and no handler named in it could move. */
  lemma {:induction false} StretchCosts(faults: Faults, programs: seq<Program>, s: System, turns: seq<nat>)
    requires |s.handlers| == |programs|
    ensures var t := Run(faults, programs, s, turns);
            TotalNeed(programs, t.handlers) < TotalNeed(programs, s.handlers)
            || (t == s && forall i :: i in turns ==> Turn(faults, programs, s, i) == s)
  {
    hide Turn, TotalNeed;
    if turns != [] {
      var last := |turns| - 1;
      StretchCosts(faults, programs, s, turns[..last]);
      TurnCosts(faults, programs, Run(faults, programs, s, turns[..last]), turns[last]);
      assert turns == turns[..last] + [turns[last]];
    }
  }

  predicate AllAnswered(s: System) {
    forall i :: 0 <= i < |s.handlers| ==> s.handlers[i].Answered?
  }

  /** Rounds of scheduling, in each of which every handler gets at least one turn. */
  predicate Fair(rounds: seq<seq<nat>>, count: nat) {
    forall k, i: nat :: 0 <= k < |rounds| && i < count ==> i in rounds[k]
  }

  function Flat(rounds: seq<seq<nat>>): seq<nat> {
    if rounds == [] then [] else Flat(rounds[..|rounds| - 1]) + rounds[|rounds| - 1]
  }

  lemma {:induction false} RoundsCost(faults: Faults, programs: seq<Program>, disk: Disk, rounds: seq<seq<nat>>)
    requires Fair(rounds, |programs|)
    ensures var start := Initial(disk, |programs|);
            var s := Run(faults, programs, start, Flat(rounds));
            AllAnswered(s) || TotalNeed(programs, s.handlers) + |rounds| <= TotalNeed(programs, start.handlers)
  {
    hide Turn, TotalNeed, Run;
    var start := Initial(disk, |programs|);
    if rounds == [] {
      RunNothing(faults, programs, start);
    } else {
      var last := |rounds| - 1;
      var before := Run(faults, programs, start, Flat(rounds[..last]));
      RoundsCost(faults, programs, disk, rounds[..last]);
      RunAppend(faults, programs, start, Flat(rounds[..last]), rounds[last]);
      StretchCosts(faults, programs, before, rounds[last]);
      NoDeadlock(faults, programs, disk, Flat(rounds[..last]));
      AnsweredStays(faults, programs, before, rounds[last]);
    }
  }

  lemma RunNothing(faults: Faults, programs: seq<Program>, s: System)
    requires |s.handlers| == |programs|
    ensures Run(faults, programs, s, []) == s
  {
  }

  lemma {:induction false} AnsweredStays(faults: Faults, programs: seq<Program>, s: System, turns: seq<nat>)
    requires |s.handlers| == |programs|
    ensures AllAnswered(s) ==> Run(faults, programs, s, turns) == s
  {
    if turns != [] { AnsweredStays(faults, programs, s, turns[..|turns| - 1]); }
  }

  /**
   * Every run ends: once the scheduler has given each handler a turn in more rounds than all programs
   * can need steps, every handler has had the lock and has answered, and the lock is free.
   */
  lemma FairRunsEnd(faults: Faults, programs: seq<Program>, disk: Disk, rounds: seq<seq<nat>>)
    requires Fair(rounds, |programs|) && |rounds| > TotalNeed(programs, Initial(disk, |programs|).handlers)
    ensures var s := Run(faults, programs, Initial(disk, |programs|), Flat(rounds));
            AllAnswered(s) && s.holder.None? && forall i: nat :: i < |programs| ==> i in s.order
  {
    hide Turn, TotalNeed, Run, SerialSoFar;
    RoundsCost(faults, programs, disk, rounds);
    RunIsSerial(faults, programs, disk, Flat(rounds));
    EndOfRun(faults, programs, disk, Run(faults, programs, Initial(disk, |programs|), Flat(rounds)));
  }

  lemma EndOfRun(faults: Faults, programs: seq<Program>, disk: Disk, s: System)
    requires SerialSoFar(faults, programs, disk, s) && AllAnswered(s)
    ensures s.holder.None? && forall i: nat :: i < |programs| ==> i in s.order
  {
    hide Exec, Serial, SerialOutcome, Completed;
    forall i: nat | i < |programs| ensures i in s.order { assert s.handlers[i].Answered?; }
  }
}
