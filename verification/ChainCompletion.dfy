/**
  The stop command waits for the chain: that a stopped chain completes, in every execution in which
  nobody is kept waiting for ever, and how many steps that takes.
 */
module ChainCompletion {
  import opened Pipeline
  import opened Subscriber

  // ----- who moves

  /** The threads of the chain: the worker of each stage, and the one in the stop command. */
  datatype Thread = Processing | Summing | Writing | Waiting

  predicate By(step: Step, thread: Thread) {
    match thread
    case Processing => step.ProcessTurn? || step.Forward? || step.Signal?
    case Summing => step.ZmqTurn?
    case Writing => step.WriterTurn?
    case Waiting => step.WaitReturns?
  }

  ghost predicate CanMove(c: Chain, thread: Thread) {
    exists step :: By(step, thread) && Possible(c, step)
  }

  /**
    A stopped chain has completed exactly when nobody can move any more; and until the processing
    stage has signalled, it is one of those that can.
   */
  lemma StoppedChainMoves(c: Chain)
    requires Consistent(c) && Signals(c) && c.stopped
    ensures c.done <==> forall thread :: !CanMove(c, thread)
    ensures !c.signalled ==> CanMove(c, Processing)
  {
    if c.done {
      NobodyMoves(c);
    } else {
      hide Consistent, Signals, Possible;
      var step, thread := WhatMoves(c);
      assert By(step, thread) && Possible(c, step);
      assert CanMove(c, thread);
    }
  }

  lemma NobodyMoves(c: Chain)
    requires Consistent(c) && Signals(c) && c.done
    ensures forall thread :: !CanMove(c, thread)
    ensures c.signalled
  {
    hide Sent;
    forall thread, step | By(step, thread)
      ensures !Possible(c, step)
    {
    }
  }

  lemma WhatMoves(c: Chain) returns (step: Step, thread: Thread)
    requires Consistent(c) && Signals(c) && c.stopped && !c.done
    ensures Possible(c, step) && By(step, thread)
    ensures !c.signalled ==> thread == Processing
  {
    hide Sent;
    if c.process.pc == Completed {
      step, thread := WaitReturns, Waiting;
    } else if c.process.pc == Exiting {
      if !c.signalled {
        step, thread := Signal, Processing;
      } else if c.zmq.pc != Completed {
        var turn := TurnOf(c.zmq);
        step, thread := ZmqTurn(turn), Summing;
      } else if c.writer.pc != Completed {
        var turn := TurnOf(c.writer);
        step, thread := WriterTurn(turn), Writing;
      } else {
        step, thread := ProcessTurn(Complete), Processing;
      }
    } else if c.process.current != [] {
      step, thread := if c.forwarded < 2 then Forward else ProcessTurn(Finish), Processing;
    } else {
      var turn := TurnOf(c.process);
      step, thread := ProcessTurn(turn), Processing;
    }
  }

  lemma TurnOf<T>(w: Worker<T>) returns (turn: Turn)
    requires w.Inv() && w.pc != Completed
    ensures Enabled(w, turn) && (turn.Finish? <==> w.current != []) && (turn.Complete? <==> w.pc == Exiting)
  {
    WorkerHasATurn(w);
    turn :| Enabled(w, turn);
  }

  // ----- what is left to do

  /** What the processing stage still has to do once it is stopped. */
  function Ahead(c: Chain): nat {
    3 * Work(c.process)
    + (if c.process.current != [] && c.forwarded < 2 then 2 - c.forwarded else 0)
    + if c.signalled then 0 else 1
  }

  /** What its subscribers and the wait still have to do once it has signalled. */
  function Behind(c: Chain): nat {
    Work(c.zmq) + Work(c.writer) + if c.done then 0 else 1
  }

  /**
    After the stop every step of the processing stage, and after its signal every other step as
    well, leaves less to do; no step but a new record adds anything. Before the signal a turn of an
    idle subscriber changes nothing here: it may look at its empty queue any number of times.
   */
  lemma ChainSettles(c: Chain, step: Step)
    requires Consistent(c) && Signals(c) && Possible(c, step) && c.stopped && !step.Publish?
    ensures After(c, step).stopped && After(c, step).signalled == (c.signalled || step.Signal?)
    ensures if By(step, Processing) then Ahead(After(c, step)) < Ahead(c)
            else Ahead(After(c, step)) == Ahead(c)
    ensures c.signalled ==>
              if By(step, Processing) then Behind(After(c, step)) == Behind(c)
              else Behind(After(c, step)) < Behind(c)
  {
    hide Sent, NotifyType, Work;
    match step
    case ProcessTurn(turn) => WorkOfTurn(c.process, turn);
    case ZmqTurn(turn) => if c.signalled { StoppedWorkDecreases(c.zmq, turn); }
    case WriterTurn(turn) => if c.signalled { StoppedWorkDecreases(c.writer, turn); }
    case _ =>
  }

  lemma WorkOfTurn<T>(w: Worker<T>, turn: Turn)
    requires w.Inv() && Enabled(w, turn)
    ensures Work(Next(w, turn, true)) + (if turn.Take? then 2 else 1) <= Work(w)
  {
  }

  // ----- runs

  function ProcessingSteps(steps: seq<Step>): (n: nat)
    ensures n <= |steps|
  {
    if steps == [] then 0
    else ProcessingSteps(steps[..|steps| - 1]) + if By(steps[|steps| - 1], Processing) then 1 else 0
  }

  predicate NoRecordIn(steps: seq<Step>) {
    forall step :: step in steps ==> !step.Publish?
  }

  /**
    However a stopped run goes on without a new record, the processing stage takes no more than
    `Ahead` steps; once it has signalled, all others together take no more than `Behind`.
   */
  lemma {:induction false} StepsAreBounded(steps: seq<Step>, more: seq<Step>)
    requires Run(steps) && Run(steps + more) && StateOf(steps).stopped && NoRecordIn(more)
    ensures StateOf(steps + more).stopped && (StateOf(steps).signalled ==> StateOf(steps + more).signalled)
    ensures StateOf(steps + more).signalled && !StateOf(steps).signalled ==> ProcessingSteps(more) > 0
    ensures ProcessingSteps(more) + Ahead(StateOf(steps + more)) <= Ahead(StateOf(steps))
    ensures StateOf(steps).signalled ==>
              |more| - ProcessingSteps(more) + Behind(StateOf(steps + more)) <= Behind(StateOf(steps))
  {
    hide Consistent, Signals, Possible, After, Ahead, Behind;
    if more == [] {
      assert steps + more == steps;
    } else {
      var front, step := more[..|more| - 1], more[|more| - 1];
      assert (steps + more)[..|steps + more| - 1] == steps + front;
      assert step in more;
      StepsAreBounded(steps, front);
      RunKeeps(steps + front);
      ChainSettles(StateOf(steps + front), step);
    }
  }

  /** And every stopped run can go on to completion, without a new record. */
  lemma {:induction false} CanComplete(steps: seq<Step>) returns (more: seq<Step>)
    requires Run(steps) && StateOf(steps).stopped
    ensures Run(steps + more) && StateOf(steps + more).done && NoRecordIn(more)
    decreases Ahead(StateOf(steps)), if StateOf(steps).signalled then Behind(StateOf(steps)) else 0
  {
    hide Consistent, Signals, Possible, After, Ahead, Behind, Run, StateOf;
    if StateOf(steps).done {
      more := [];
      assert steps + more == steps;
    } else {
      RunKeeps(steps);
      var step, _ := WhatMoves(StateOf(steps));
      ChainSettles(StateOf(steps), step);
      OneMoreStep(steps, step);
      var rest := CanComplete(steps + [step]);
      more := [step] + rest;
      assert steps + more == steps + [step] + rest;
    }
  }

  // ----- executions

  /** An execution is the run so far at every moment; from one to the next a step is taken or none. */
  ghost predicate Execution(at: nat -> seq<Step>) {
    forall n: nat :: Moment(at, n)
  }

  ghost predicate Moment(at: nat -> seq<Step>, n: nat) {
    Run(at(n)) && at(n) <= at(n + 1) && |at(n + 1)| <= |at(n)| + 1
  }

  /** What happens between moment `n` and the next. */
  function Happens(at: nat -> seq<Step>, n: nat): seq<Step>
    requires at(n) <= at(n + 1)
  {
    at(n + 1)[|at(n)|..]
  }

  /** At moment `n` the thread moves, or cannot. */
  ghost predicate Served(at: nat -> seq<Step>, n: nat, thread: Thread) {
    && Moment(at, n)
    && (!CanMove(StateOf(at(n)), thread) || exists step :: step in Happens(at, n) && By(step, thread))
  }

  ghost predicate ServedLater(at: nat -> seq<Step>, n: nat, thread: Thread) {
    exists m: nat :: n <= m && Served(at, m, thread)
  }

  /** No thread is kept waiting for ever: again and again it moves, or cannot. */
  ghost predicate Fair(at: nat -> seq<Step>) {
    forall n: nat, thread :: ServedLater(at, n, thread)
  }

  ghost predicate NoRecordAt(at: nat -> seq<Step>, n: nat) {
    Moment(at, n) && NoRecordIn(Happens(at, n))
  }

  ghost predicate NoRecordFrom(at: nat -> seq<Step>, n: nat) {
    forall m: nat :: n <= m ==> NoRecordAt(at, m)
  }

  lemma {:induction false} GoesOn(at: nat -> seq<Step>, n: nat, m: nat)
    requires Execution(at) && NoRecordFrom(at, n) && n <= m
    ensures Run(at(n)) && Run(at(m)) && at(n) <= at(m) && NoRecordIn(at(m)[|at(n)|..])
    decreases m
  {
    hide Run;
    assert Moment(at, n) && Moment(at, m);
    if n < m {
      GoesOn(at, n, m - 1);
      assert NoRecordAt(at, m - 1);
      assert at(m)[|at(n)|..] == at(m - 1)[|at(n)|..] + Happens(at, m - 1);
    } else {
    }
  }

  /** A thread that can move and is served leaves less to do. */
  lemma TurnTaken(at: nat -> seq<Step>, m: nat, thread: Thread)
    requires Execution(at) && NoRecordFrom(at, m) && Served(at, m, thread)
    requires StateOf(at(m)).stopped && CanMove(StateOf(at(m)), thread)
    ensures Moment(at, m + 1) && StateOf(at(m + 1)).stopped
    ensures var d, e := StateOf(at(m)), StateOf(at(m + 1));
            if thread == Processing then Ahead(e) < Ahead(d)
            else Ahead(e) == Ahead(d) && e.signalled == d.signalled && (d.signalled ==> Behind(e) < Behind(d))
  {
    hide Consistent, Signals, Possible, After, Ahead, Behind, Run, StateOf;
    assert Moment(at, m) && Moment(at, m + 1) && NoRecordAt(at, m);
    var step :| step in Happens(at, m) && By(step, thread);
    assert at(m + 1) == at(m) + [step];
    StepOf(at(m), step);
    RunKeeps(at(m));
    ChainSettles(StateOf(at(m)), step);
  }

  /**
    Completion: in every fair execution, whatever the schedule, the stop command's wait returns
    once the records cease.
   */
  lemma {:induction false} FairExecutionCompletes(at: nat -> seq<Step>, n: nat) returns (m: nat)
    requires Execution(at) && Fair(at) && Moment(at, n) && StateOf(at(n)).stopped && NoRecordFrom(at, n)
    ensures n <= m && Moment(at, m) && StateOf(at(m)).done
    decreases Ahead(StateOf(at(n))), if StateOf(at(n)).signalled then Behind(StateOf(at(n))) else 0
  {
    hide Consistent, Signals, Possible, After, Ahead, Behind, Run, StateOf;
    var c := StateOf(at(n));
    if c.done {
      m := n;
    } else {
      RunKeeps(at(n));
      var step, thread := WhatMoves(c);
      assert CanMove(c, thread);
      assert ServedLater(at, n, thread);
      m :| n <= m && Served(at, m, thread);
      LeftAt(at, n, m);
      var d := StateOf(at(m));
      if Ahead(d) == Ahead(c) && (c.signalled ==> Behind(d) == Behind(c)) {
        RunKeeps(at(m));
        StoppedChainMoves(d);
        TurnTaken(at, m, thread);
        m := m + 1;
      }
      m := FairExecutionCompletes(at, m);
    }
  }

  /**
    And then everything has arrived: the summing subscriber has got one frame per record ever
    published, and the file writer those with a file name, if no record came too late before.
   */
  lemma FairExecutionDelivers(at: nat -> seq<Step>, n: nat) returns (m: nat)
    requires Execution(at) && Fair(at) && Moment(at, n) && StateOf(at(n)).stopped && NoRecordFrom(at, n)
    requires NoneTooLate(at(n))
    ensures n <= m && Moment(at, m) && StateOf(at(m)).done
    ensures StateOf(at(m)).zmq.delivered == Frames(PublishedIn(at(n)))
    ensures StateOf(at(m)).writer.delivered == Frames(Named(PublishedIn(at(n))))
  {
    hide Run, StateOf, NoneTooLate, PublishedIn;
    m := FairExecutionCompletes(at, n);
    GoesOn(at, n, m);
    var more := at(m)[|at(n)|..];
    assert at(m) == at(n) + more;
    NothingNew(at(n), more);
    WholeDelivery(at(m));
  }

  lemma {:induction false} NothingNew(steps: seq<Step>, more: seq<Step>)
    requires Run(steps) && Run(steps + more) && NoRecordIn(more)
    ensures NoneTooLate(steps + more) == NoneTooLate(steps)
    ensures PublishedIn(steps + more) == PublishedIn(steps)
  {
    hide Possible;
    if more == [] {
      assert steps + more == steps;
    } else {
      var front, step := more[..|more| - 1], more[|more| - 1];
      assert (steps + more)[..|steps + more| - 1] == steps + front;
      assert step in more;
      NothingNew(steps, front);
    }
  }

  /** What is left at a later moment; with nothing done the chain has not moved. */
  lemma LeftAt(at: nat -> seq<Step>, n: nat, m: nat)
    requires Execution(at) && Moment(at, n) && StateOf(at(n)).stopped && NoRecordFrom(at, n) && n <= m
    ensures Moment(at, m) && NoRecordFrom(at, m)
    ensures var c, d := StateOf(at(n)), StateOf(at(m));
            && d.stopped && Ahead(d) <= Ahead(c) && (c.signalled ==> d.signalled && Behind(d) <= Behind(c))
            && (Ahead(d) == Ahead(c) ==> d.signalled == c.signalled)
            && (Ahead(d) == Ahead(c) && c.signalled && Behind(d) == Behind(c) ==> d == c)
  {
    hide Run, StateOf, Ahead, Behind;
    GoesOn(at, n, m);
    var more := at(m)[|at(n)|..];
    assert at(m) == at(n) + more;
    StepsAreBounded(at(n), more);
    assert more == [] ==> at(m) == at(n);
  }

  lemma StepOf(steps: seq<Step>, step: Step)
    requires Run(steps + [step])
    ensures Run(steps) && Possible(StateOf(steps), step)
    ensures StateOf(steps + [step]) == After(StateOf(steps), step)
  {
    assert (steps + [step])[..|steps + [step]| - 1] == steps;
  }

  // ----- there are such executions

  /** The threads in turn; from a run, each takes a step when it can. */
  function ThreadAt(n: nat): Thread {
    match n % 4
    case 0 => Processing
    case 1 => Summing
    case 2 => Writing
    case _ => Waiting
  }

  ghost function RoundRobin(steps: seq<Step>, n: nat): (r: seq<Step>)
    requires Run(steps)
    ensures Run(r)
    decreases n
  {
    if n <= |steps| then
      RunsOf(steps, n);
      steps[..n]
    else
      var before := RoundRobin(steps, n - 1);
      if CanMove(StateOf(before), ThreadAt(n - 1)) then
        var step :| By(step, ThreadAt(n - 1)) && Possible(StateOf(before), step);
        OneMoreStep(before, step);
        before + [step]
      else before
  }

  lemma RoundRobinMoment(steps: seq<Step>, at: nat -> seq<Step>, n: nat)
    requires Run(steps) && forall k: nat :: at(k) == RoundRobin(steps, k)
    ensures Moment(at, n)
    ensures n >= |steps| ==> NoRecordAt(at, n) && Served(at, n, ThreadAt(n))
  {
    hide Run, StateOf, CanMove;
    if n < |steps| {
      assert steps[..n + 1] == steps[..n] + [steps[n]];
    } else {
      var before := RoundRobin(steps, n);
      assert at(n) == before && at(n + 1) == RoundRobin(steps, n + 1);
      if CanMove(StateOf(before), ThreadAt(n)) {
        assert Happens(at, n) == [at(n + 1)[|before|]] && By(at(n + 1)[|before|], ThreadAt(n));
      } else {
        assert Happens(at, n) == [];
      }
    }
  }

  /** Every run can be carried on to a fair execution, without a new record; stopped or not. */
  lemma FairExecutionsExist(steps: seq<Step>) returns (at: nat -> seq<Step>)
    requires Run(steps)
    ensures Execution(at) && Fair(at) && at(|steps|) == steps && NoRecordFrom(at, |steps|)
  {
    hide Run, RoundRobin, Moment, NoRecordAt, Served;
    at := MomentsOf(steps);
    forall n: nat
      ensures Moment(at, n) && (n >= |steps| ==> NoRecordAt(at, n))
    {
      RoundRobinMoment(steps, at, n);
    }
    forall n: nat, thread
      ensures ServedLater(at, n, thread)
    {
      var m := TurnAfter(if n < |steps| then |steps| else n, thread);
      RoundRobinMoment(steps, at, m);
    }
  }

  ghost function MomentsOf(steps: seq<Step>): (at: nat -> seq<Step>)
    requires Run(steps)
    ensures at(|steps|) == steps && forall n: nat :: at(n) == RoundRobin(steps, n)
  {
    (n: nat) => RoundRobin(steps, n)
  }

  lemma TurnAfter(n: nat, thread: Thread) returns (m: nat)
    ensures n <= m && ThreadAt(m) == thread
  {
    var k := match thread case Processing => 0 case Summing => 1 case Writing => 2 case Waiting => 3;
    m := n + (k + 4 - n % 4) % 4;
    assert m % 4 == k;
  }

  lemma {:induction false} RunsOf(steps: seq<Step>, n: nat)
    requires Run(steps) && n <= |steps|
    ensures Run(steps[..n])
  {
    if n == |steps| {
      assert steps[..n] == steps;
    } else {
      RunsOf(steps[..|steps| - 1], n);
      assert steps[..|steps| - 1][..n] == steps[..n];
    }
  }
}
